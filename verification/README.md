# Models of the sideprojects monorepo

This project models the parts of the repository whose behaviour is decided by code rather
than by I/O, and proves what they promise. `dafny verify dfyconfig.toml` checks everything.

Code that changes state step by step is modelled as classes and methods with the source's
fields and loops. Each method is proved equal to a specification function of the old state;
the hard properties are lemmas about those functions, over all inputs, all runs and all
answers of the outside world.

| component | files | in one sentence |
|---|---|---|
| cloak | `CloakStream`, `CloakProtocol`, `CloakLimits`, `Wire` | a stop-and-wait byte stream over a network that loses, duplicates and reorders |
| movie proxy, redban | `RateLimiter`, `RedBan`, `RateWindows` | a token bucket that denies and one that reserves into the future |
| surf | `HtmlGrammar`, `HtmlNode`, `HtmlParser`, `HtmlRoundTrip`, `HtmlWritten`, `HtmlUnfinished`, `HtmlSafety`, `HtmlCutOff` | a recursive-descent HTML parser that builds linked nodes |
| relay | `RelayRing`, `RelayStore`, `RelaySends`, `RelayHandoff`, `RelayRepeats`, `RelayServer` | ring buffers and the handoff from replay to live delivery |
| plate | `IpAddress`, `IpCidr`, `IpPool`, `IpAllocator`, `PlateControl`, `PlatePlane` | CIDR expansion, an address pool, and VM operations over a backend that fails |
| hotwire | `HotwireSums`, `HotwireScore`, `HotwireServer` | scoring of backends, change detection and fan-out |
| movie scraper | `GoStrings`, `RedditCrawl`, `RedditCoverage`, `RedditCrawler` | a bounded crawl over pages that may say anything |
| minstd | `MinStrings`, `MinBufio`, `MinHttp` | buffered reading and request parsing |
| ipv1 | `Ipv1Packet`, `Ipv1Registry` | a packet codec and an address registry |

## How the models are built

- **cloak.** A step of `CloakProtocol` is one locked section, one send or one channel
  operation, so writer, read loop, application and close interleave freely at both ends. The
  network is the set of all frames ever sent. The read loop sends an acknowledgement before
  it compares the sequence number; the invariant therefore speaks of the chunks that are
  *secured*: accepted, or acknowledged and in the read loop's hands.
- **Clocks** are arguments; lemmas about runs ask for a clock that does not go backwards.
- **Backends, pages, networks and contexts** answer arbitrarily. In `RedditCrawler` the
  answers are unconstrained assignments, kept in a log of all questions; in `PlateControl`
  they are parts of the operation.
- **HTML** is read twice: `HtmlRoundTrip` writes trees in one fixed way, `HtmlWritten` has a
  syntax for everything a page may look like and a meaning for it.
- **Ring buffers** refine logs that never forget (`RelayRing`), and the store's state machine
  keeps, per subscriber, the trace of what was offered, sent, dropped and replayed.

## What turned out not to hold everywhere

Each of these is stated with its exact condition; for surf, over the well-formed texts that
stop inside a closing tag.

- cloak's stream is safe if and only if fewer than 2^32 chunks are written
  (`CloakLimits.SafeExactlyBelowWrap`), and an outstanding write can complete if and only if
  its chunk is not empty (`CloakLimits.CompletesIffNonEmpty`, `CloakLimits.EmptyWriteStuck`).
- A write has returned success with its chunk unaccepted if and only if the receiving read
  loop has acknowledged that chunk without having checked its number and the writer is
  neither waiting for it nor gave up on it (`CloakLimits.SuccessUnacceptedIff`); whenever the
  read loop is there, the sender can bring that about (`CloakLimits.SuccessCanComeFirst`).
- redban's window bound holds if and only if no take exceeds the burst
  (`RedBan.BoundedIffSmallTakes`); restarts are invisible if and only if there is a file
  (`RedBan.RestartsInvisibleIffFile`).
- surf's parser can take a suffix past the end of its text. It cannot if every `</` is
  followed by a `>` (`HtmlSafety.NoPanic`). On a well-formed text cut off inside a closing
  tag it does if and only if two elements are open there, or one whose name the closing tag
  does not begin with (`HtmlCutOff.CutPanicsIff`).
- surf's parser gives the tree that is meant for every page whose closing tags are in small
  letters and end their own elements (`HtmlWritten.ParseWritten`). The tag of something else
  ends an element too, and so does its own behind nothing but blanks, and both take a closing
  tag right behind them along (`HtmlUnfinished.WrongClose`, `HtmlUnfinished.BlankInside`).
- relay gives an open subscriber an event of a topic twice, once its replay is done, if and
  only if the topic was named twice in its call and something of it was owed
  (`RelayRepeats.ChannelRepeatsIff`, `RelayRepeats.TwiceNamedRepeats`).
- hotwire's change detection is right if and only if the new table has a positive weight or
  the old one has none (`HotwireServer.UnchangedIff`, `HotwireServer.MissedChange`).
- ipv1's `Decode` accepts addresses that `Encode` refuses; re-encoding gives the same bytes
  if and only if both addresses fit (`Ipv1Packet.DecodeThenEncode`, `Ipv1Packet.LongAddress`).
- Normalizing a subreddit's name twice is the same as once if and only if the first result
  does not begin with `r/` (`RedditCrawl.NormalizeTwice`), and two movies can share a key
  without sharing a title (`RedditCrawl.SameKeyIff`, `RedditCrawl.KeysCanMeet`).

## Model

| member | source | states |
|---|---|---|
| CloakStream.ReadConserves | cloak/tunnel.go:437-456 | a read moves bytes from the front of buffer and inbox to the caller, at most the buffer's size, and loses none; a read into a real buffer is never empty while non-empty chunks wait |
| CloakStream.ReadAnswers | cloak/tunnel.go:437-456 | with nothing buffered a read says end of file if the stream is closed and the inbox is empty or the runtime prefers the close, and only if it is closed; it waits if and only if the stream is open with nothing buffered or queued |
| CloakStream.OnlyItsAckMatches | cloak/tunnel.go:194-218 | after a write began, an acknowledgement matches if and only if it has the write's number and the chunk is not empty, and it matches once |
| CloakStream.OnceInARound | cloak/tunnel.go:174-182 | a number that was delivered is refused until 2^32 deliveries have gone round |
| CloakStream.Stream.StartWrite | cloak/tunnel.go:212-218 | takes the next number modulo 2^32 and makes the chunk pending under it; an empty chunk leaves nothing pending |
| CloakStream.Stream.AcceptData | cloak/tunnel.go:174-179 | delivers exactly the expected number and then expects the next one |
| CloakStream.Stream.Deliver | cloak/tunnel.go:183-186 | the chunk goes to the end of the inbox, unless the stream is closed and the runtime picks that case |
| CloakStream.Stream.MatchAck | cloak/tunnel.go:194-199 | only an acknowledgement of the pending number clears the pending chunk |
| CloakStream.Stream.SignalWriter | cloak/tunnel.go:200-205 | there is one token afterwards, also if there was one already |
| CloakStream.Stream.TakeToken | cloak/tunnel.go:226-228 | succeeds exactly when a token is there and removes it |
| CloakStream.Stream.Remove | cloak/tunnel.go:99-110 | closing twice is closing once and touches nothing else |
| CloakStream.Stream.Read | cloak/tunnel.go:437-456 | fills a prefix of the caller's array and leaves the rest alone; buffered bytes first, else the oldest chunk, of which it keeps what does not fit; end of file and waiting exactly as in ReadAnswers |
| CloakProtocol.LocalStep | cloak/tunnel.go:168-187 | what the application read, its buffer and the inbox are always the delivered chunks, which trail the accepted ones by at most the chunk in the read loop |
| CloakProtocol.WriterStep | cloak/tunnel.go:212-236 | no step of the write goroutine breaks the two-ended invariant |
| CloakProtocol.NonWriterStep | cloak/tunnel.go:189-206 | nor does any other step of the sending end |
| CloakProtocol.ReceiverStep | cloak/tunnel.go:168-187 | nor does any step of the receiving end, although it acknowledges before it checks the number |
| CloakProtocol.InvAlong | cloak/tunnel.go:168-236 | the invariant holds along every run with fewer than 2^32 chunks |
| CloakProtocol.Safety | cloak/tunnel.go:168-236 | in every run accepted chunks are a prefix of secured ones and those of the written ones; secured chunks are between the completed and the written count, which differ by at most one |
| CloakProtocol.FramesBounded | cloak/tunnel.go:168-187 | every data frame ever sent carries the chunk of its number and a number at most the next expected one; every acknowledgement ever sent is for something secured |
| CloakProtocol.OneToken | cloak/tunnel.go:189-206 | there is at most one acknowledgement token, none when no write is outstanding |
| CloakProtocol.EndToEnd | cloak/tunnel.go:437-463 | bytes read, then the read buffer, then the queued chunks are always a prefix of all bytes written, for any buffer sizes and chunking |
| CloakProtocol.NothingLost | cloak/tunnel.go:437-463 | while the receiving end is open, every byte of a write that returned success is read, buffered, queued or in the read loop |
| CloakProtocol.DrainedSaysEof | cloak/tunnel.go:437-456 | in every run, once an end is closed and its application has read all that was delivered, every further read of any size says end of file and changes nothing |
| CloakProtocol.CloseStays | cloak/tunnel.go:99-110 | the peer's close takes one step to arrive, and no later step reopens the stream |
| CloakLimits.CanComplete | cloak/tunnel.go:222-235 | from every state the invariant allows, with both ends open, a write of a non-empty chunk can return success within 18 steps |
| CloakLimits.CompletesSoon | cloak/tunnel.go:222-235 | the same from every reachable state, whatever was lost or reordered before |
| CloakLimits.EmptyNeverCompletes | cloak/tunnel.go:195-216 | a write of an empty chunk never returns success, in any continuation |
| CloakLimits.CompletesIffNonEmpty | cloak/tunnel.go:189-236 | in every reachable state with both ends open, the outstanding write can complete if and only if its chunk is not empty |
| CloakLimits.EmptyWriteStuck | cloak/tunnel.go:212-218 | one step from the start, a write of an empty chunk is outstanding and no continuation completes it |
| CloakLimits.WrapAccepts | cloak/tunnel.go:174-178 | after 2^32 writes the first frame, arriving late, is accepted a second time |
| CloakLimits.SafeExactlyBelowWrap | cloak/tunnel.go:168-236 | all runs of up to n writes accept only a prefix of what was written, if and only if n < 2^32 |
| CloakLimits.SuccessBeforeAcceptance | cloak/tunnel.go:173-178 | a run of eight steps in which a write succeeded and nothing is accepted yet |
| CloakLimits.SuccessUnacceptedIff | cloak/tunnel.go:173-206 | in every run more writes succeeded than chunks were accepted if and only if the receiving read loop holds an acknowledged, unchecked chunk and the sending writer has left that chunk's number |
| CloakLimits.SuccessMeansAccepted | cloak/tunnel.go:173-178 | then exactly that chunk is missing, and it is the next one in the order written |
| CloakLimits.SuccessCanComeFirst | cloak/tunnel.go:173-206 | whenever the receiving read loop is at that point and the write still waits, steps of the sender alone make the write succeed first |
| Wire.EncodeMsg | cloak/frame.go:70-77 | the array written decodes to the message: kind, then stream and number in four bytes each, most significant first, then the body |
| Wire.DecodeInjective | cloak/frame.go:79-89 | two byte strings that decode to one message are equal, so encodings are unique |
| Wire.FrameSurvives | cloak/frame.go:70-89 | a frame read from the bytes of a frame sent on a stream is that frame on that stream |
| Wire.MessageBytes | cloak/frame.go:70-89 | every byte of a decodable message, with the numbers as base-256 digits |
| Wire.FrameCodes | cloak/frame.go:53-58 | data, acknowledgement and close are kinds 4, 5 and 6 with these fields, and no other kind is a frame |
| RateLimiting.RateLimiter.Allow | movie/internal/proxy/server/server.go:94-117 | grants what AllowOne grants for the address's bucket and changes no other bucket |
| RateLimiting.GrantedIffPermitted | movie/internal/proxy/server/server.go:98-116 | a request is granted exactly when every window from an earlier grant to now, this one included, holds at most burst + rate * length grants |
| RateLimiting.AllowIff | movie/internal/proxy/server/server.go:94-117 | the same for any request in any run over any mix of addresses |
| RateLimiting.GrantsPaced | movie/internal/proxy/server/server.go:104-116 | every pair of grants to an address obeys that bound; denials cost nothing |
| RateLimiting.WindowBound | movie/internal/proxy/server/server.go:104-116 | no window of length T, wherever it starts, holds more than burst + rate * T grants |
| RateLimiting.KeysIndependent | movie/internal/proxy/server/server.go:99-103 | an address's grants and bucket are those of a run with its own requests alone |
| RedBan.Bucket.Open | redban/bucket.go:25-39 | loads the stored pair, or starts full if nothing is stored |
| RedBan.Bucket.Take | redban/bucket.go:41-65 | takes the specified step and stores the new pair |
| RedBan.Bucket.SaveLocked | redban/bucket.go:81-95 | writes the pair under the bucket's path, and nothing without a path |
| RedBan.OneRule | redban/bucket.go:45-64 | both branches refine one rule: balance' = min(burst, balance) - n, wait = max(0, -balance' / rate), although one stores no tokens and a future time |
| RedBan.AtRelease | redban/bucket.go:59-64 | at its release a take leaves what is left, never less than nothing |
| RedBan.NextRelease | redban/bucket.go:45-64 | a later take is released no earlier and gains at most rate * the time between the releases |
| RedBan.ReleasesInOrder | redban/bucket.go:41-65 | in every run the release times never go backwards |
| RedBan.SliceBound | redban/bucket.go:41-65 | between any two releases, both counted, at most burst + rate * time is released |
| RedBan.BoundedIffSmallTakes | redban/bucket.go:41-65 | every window of a run is within its bound if and only if no take exceeds the burst |
| RedBan.WindowBound | redban/bucket.go:41-65 | any window of length T releases at most burst + rate * T tokens |
| RedBan.StaysAlike | redban/bucket.go:25-95 | cutting a run at any points by save, load and Open changes neither waits nor later behaviour |
| RedBan.RestartsInvisibleIffFile | redban/bucket.go:81-84 | restarts change no wait of any run if and only if the bucket has a file |
| RedBan.ForgetsWithoutFile | redban/bucket.go:81-84 | without a file two full takes around a restart both go ahead at once |
| HtmlNodes.HtmlNode.AppendChild | surf/pkg/seo/html.go:247-255 | the doubly linked list of children gains the child at its end and the subtree spelled by the node gains exactly that child |
| HtmlNodes.HtmlNode.Link | surf/pkg/seo/html.go:247-255 | first, last, next and previous links describe the old children followed by the new one |
| HtmlNodes.HtmlNode.HasAttr | surf/pkg/seo/html.go:257-264 | true exactly when some attribute has the key |
| HtmlParsing.HtmlParser.SkipWhitespace | surf/pkg/seo/html.go:85-89 | stops at the first byte that is no space |
| HtmlParsing.HtmlParser.ParseTagName | surf/pkg/seo/html.go:176-182 | the longest run of name bytes |
| HtmlParsing.HtmlParser.ParseAttributeValue | surf/pkg/seo/html.go:192-218 | AttrValue of the grammar, which HtmlWritten.QuotedReads, HtmlWritten.BareReads and HtmlUnfinished.OpenTag describe byte by byte |
| HtmlParsing.HtmlParser.ParseAttributes | surf/pkg/seo/html.go:106-119 | the loop appends exactly the attributes the grammar finds, and ends |
| HtmlParsing.HtmlParser.ParseComment | surf/pkg/seo/html.go:234-245 | says whether the comment is closed and moves past it or to the end |
| HtmlParsing.HtmlParser.ParseText | surf/pkg/seo/html.go:220-226 | everything up to the next '<' |
| HtmlParsing.HtmlParser.ParseElement | surf/pkg/seo/html.go:91-174 | the recursion ends, and builds fresh linked nodes that spell the grammar's element, or fails exactly where the grammar crashes |
| HtmlParsing.HtmlParser.ParseChildren | surf/pkg/seo/html.go:138-163 | the loop over children ends and links exactly the grammar's children |
| HtmlParsing.HtmlParser.Parse | surf/pkg/seo/html.go:46-79 | tree, unclosed-comment error or run-time panic exactly as the grammar says, with the tree in linked nodes; HtmlWritten.ParseWritten says which tree |
| HtmlParsing.TopTurnIs | surf/pkg/seo/html.go:50-76 | every turn of the top loop moves the cursor forward |
| HtmlParsing.ChildTurnIs | surf/pkg/seo/html.go:138-163 | every turn of the child loop moves the cursor forward, to at most one past the end |
| HtmlRoundTrip.AttrsBack | surf/pkg/seo/html.go:106-119 | well-formed attributes read back from their text |
| HtmlRoundTrip.ElementBack | surf/pkg/seo/html.go:91-174 | a well-formed element reads back from its text anywhere in a text, to any depth |
| HtmlRoundTrip.ChildrenBack | surf/pkg/seo/html.go:138-163 | well-formed children before their closing tag read back, to any width |
| HtmlRoundTrip.ParseShow | surf/pkg/seo/html.go:46-174 | parsing the text of any well-formed forest returns exactly that forest |
| HtmlRoundTrip.ShowInjective | surf/pkg/seo/html.go:46-174 | different well-formed forests have different texts |
| HtmlWritten.QuotedReads | surf/pkg/seo/html.go:198-210 | a quoted value ends with its own mark and may hold the other one |
| HtmlWritten.BareReads | surf/pkg/seo/html.go:212-217 | a bare value is read whole, up to a blank or the end of the tag |
| HtmlWritten.AttrsRead | surf/pkg/seo/html.go:106-128 | attributes that are each quoted either way, bare or without a value, with any gaps, capitals and an optional slash, read as key in small letters and value |
| HtmlWritten.CommentReads | surf/pkg/seo/html.go:234-245 | a comment ends with the first mark behind its opening |
| HtmlWritten.TagReads | surf/pkg/seo/html.go:91-174 | an element written in any of these ways reads as the element that is meant, to any depth |
| HtmlWritten.ItemsTurn | surf/pkg/seo/html.go:138-163 | so does any list of children with blanks and comments between them, whatever follows |
| HtmlWritten.PageTurn | surf/pkg/seo/html.go:50-76 | and any list of nodes, comments and document types at the top |
| HtmlWritten.ParseWritten | surf/pkg/seo/html.go:46-174 | parsing a page gives exactly the tree that is meant, however its attributes, capitals, slashes, blanks, comments, document types and closing tags are written |
| HtmlWritten.WrittenMeaning | surf/pkg/seo/html.go:46-174 | one text never means two trees |
| HtmlUnfinished.OpenAtEnd | surf/pkg/seo/html.go:138-173 | a page without any number of its last closing tags, and even with a comment left open inside, is the same tree |
| HtmlUnfinished.CommentLeftOpen | surf/pkg/seo/html.go:57-60 | a comment left open at the top is the parser's one error |
| HtmlUnfinished.OpenTag | surf/pkg/seo/html.go:106-119 | a text that ends inside a value gives the tag with the value so far; an open quote takes the rest |
| HtmlUnfinished.VoidTakesNone | surf/pkg/seo/html.go:130-138 | exactly the fourteen listed elements take no children |
| HtmlUnfinished.StrayClose | surf/pkg/seo/html.go:94-101 | a closing tag at the top joins the tree as an element with the attribute "/" |
| HtmlUnfinished.WrongClose | surf/pkg/seo/html.go:151-170 | the closing tag of something else ends an element, and a closing tag right behind it is swallowed |
| HtmlUnfinished.BlankInside | surf/pkg/seo/html.go:140-170 | an element with only blanks inside ends with its closing tag met as an element, and a closing tag right behind it is swallowed |
| HtmlUnfinished.NameCharIs | surf/pkg/seo/html.go:176-182 | the bytes of a name: ASCII and Latin-1 letters, digits, hyphen and underscore |
| HtmlSafety.ElementInside | surf/pkg/seo/html.go:91-174 | if every "</" is followed by a '>', an element never ends past the end of the text |
| HtmlSafety.NoPanic | surf/pkg/seo/html.go:46-174 | and the parser never panics |
| HtmlSafety.EndsInGtParses | surf/pkg/seo/html.go:46-174 | a text whose last byte is '>' gives the unclosed-comment error or a tree with the cursor exactly at the end |
| HtmlCutOff.OpenElements | surf/pkg/seo/html.go:91-174 | of well-formed elements left open by a text that ends inside a closing tag, an innermost one cut in its own closing tag ends one past the text, and every other one crashes |
| HtmlCutOff.CutPanicsIff | surf/pkg/seo/html.go:46-174 | a well-formed text with any nodes and open elements, cut off inside a closing tag, makes the parser panic if and only if two elements are open, or one whose name the closing tag does not begin with |
| HtmlCutOff.DanglingCloseCanPanic | surf/pkg/seo/html.go:97-99 | the text "<b><a></a" makes it panic |
| RelayRing.RingBuffer.Add | relay/internal/store/store.go:39-49 | one slot is overwritten, the head moves around, the event gets the next offset |
| RelayRing.RingBuffer.ReplayFrom | relay/internal/store/store.go:51-66 | the loop over wrapped indices returns the specified events |
| RelayRing.AppendAgrees | relay/internal/store/store.go:39-49 | appending to a buffer that holds the tail of a log is appending to the log, also across the wrap |
| RelayRing.ReplayAgrees | relay/internal/store/store.go:51-66 | replaying such a buffer is reading the log from the first offset still held |
| RelayRing.RingIsLog | relay/internal/store/store.go:29-66 | after any appends to a buffer of any size, replay(from) is the log from max(from, n - min(n, size)) on, each offset its index |
| RelayRing.RingReplays | relay/internal/store/store.go:51-66 | the replay is the log from the largest of 0, from and n - size on, and empty for an offset not reached yet |
| RelayStore.PublishKeeps | relay/internal/store/store.go:96-114 | publishing offers the event to exactly the topic's subscribers, sent or dropped, and keeps the invariant |
| RelayStore.SubscribeKeeps | relay/internal/store/store.go:117-135 | joining under the lock with a replay plan keeps it |
| RelayStore.UnsubscribeKeeps | relay/internal/store/store.go:143-152 | leaving all topics and closing the channel keeps it |
| RelayStore.StepKeeps | relay/internal/store/store.go:87-153 | as does every step of publishers, subscribers, replay goroutines and receivers |
| RelaySends.PublishSends | relay/internal/store/store.go:96-114 | a subscriber of the topic with fewer than 64 queued events gets exactly the event, with its offset, at the end of its channel; a full channel and everyone else stay as they were |
| RelaySends.PublishLogs | relay/internal/store/store.go:96-99 | the event joins its topic's log under the next offset; subscriptions and other topics stay |
| RelaySends.SubscribeJoins | relay/internal/store/store.go:117-135 | exactly the named topics list the new subscriber besides their old ones |
| RelaySends.SubscribeOwes | relay/internal/store/store.go:131-133 | it is to be given the log from its offset on, at most the last 256 events, and nothing without an offset |
| RelaySends.UnsubscribeLeaves | relay/internal/store/store.go:143-152 | no topic lists the subscriber any more, its channel is closed, and everyone else stays |
| RelaySends.DroppedWhenFull | relay/internal/store/store.go:108-113 | in every run an event is dropped only at a moment when the channel holds 64 |
| RelaySends.KeepingUpGetsAll | relay/internal/store/store.go:87-141 | a subscriber whose reader keeps its channel below 64 gets, once its replay is done, every event from the first one owed to the latest, each once |
| RelayHandoff.Reachable | relay/internal/store/store.go:87-153 | the invariant, the buffers' agreement with their logs and the replay plans hold after any steps |
| RelayHandoff.PutInterleaves | relay/internal/store/store.go:108-141 | whatever is put on a channel, its events of a topic below a cut are the replayed ones and those from it on the live ones, each in the order put |
| RelayHandoff.Handoff | relay/internal/store/store.go:87-141 | on an open channel the events of a topic interleave a beginning of the owed replay, in order, with offers made since the subscription, in order; all are published events from the first owed offset on |
| RelayHandoff.TwoRuns | relay/internal/store/store.go:87-141 | the events of a topic below the topic's next offset at subscription are exactly the replayed ones and the others exactly the live ones, both with increasing offsets in the channel's order |
| RelayHandoff.NoRepeats | relay/internal/store/store.go:87-141 | no offset of a topic appears on it twice |
| RelayHandoff.Complete | relay/internal/store/store.go:87-141 | when the replay is done and nothing of the topic was dropped, the events below the cut and those from it on are exactly the log's, in its order, from the first owed offset to the latest |
| RelayHandoff.NoSendAfterClose | relay/internal/store/store.go:108-113 | a topic never lists a closed subscriber, so Publish never sends on a closed channel |
| RelayRepeats.PlanDistinctIff | relay/internal/store/store.go:126-134 | the replay plan repeats an event if and only if a topic with something owed is named twice |
| RelayRepeats.ChannelRepeatsIff | relay/internal/store/store.go:117-141 | once its replay is done, an open subscriber was given an offset of a topic twice if and only if it named the topic twice and something of it was owed |
| RelayRepeats.TwiceNamedRepeats | relay/internal/store/store.go:126-141 | a run of five steps from the empty store in which that happens |
| RelayServer.EventStore.Publish | relay/internal/store/store.go:87-115 | returns the event with its offset and the number of subscribers; channels of the topic with fewer than 64 events gain the event at the end, all others stay; and it takes the model's publish step |
| RelayServer.EventStore.Subscribe | relay/internal/store/store.go:117-153 | takes the model's subscribe step, topic by topic |
| RelayServer.EventStore.Unsubscribe | relay/internal/store/store.go:143-152 | takes the model's unsubscribe step |
| RelayServer.EventStore.SendAll | relay/internal/store/store.go:108-113 | in any order each channel with fewer than 64 events gains the event at the end, and no other changes |
| RelayServer.EventStore.SubscriberCount | relay/internal/store/store.go:156-164 | the number of subscribers of the topic, 0 for an unknown one |
| IpAddress.IncIP | plate/internal/ippool/ippool.go:236-243 | the in-place loop computes Next |
| IpAddress.NextValue | plate/internal/ippool/ippool.go:236-243 | the byte carry adds one, wrapping at the end of the address space |
| IpAddress.ValueInjective | plate/internal/ippool/ippool.go:245-247 | addresses of one length with equal values are equal |
| IpCidr.LastIP | plate/internal/ippool/ippool.go:228-234 | the in-place loop sets the host bits |
| IpCidr.LastValue | plate/internal/ippool/ippool.go:228-234 | its value is the network's plus 2^(32 - prefix) - 1 |
| IpCidr.BlockIff | plate/internal/ippool/ippool.go:182-197 | an address has the prefix if and only if it lies between network and broadcast address |
| IpPool.ExpandCIDR | plate/internal/ippool/ippool.go:182-220 | the loop ends, never fails for IPv4 and returns Hosts |
| IpPool.HostsIff | plate/internal/ippool/ippool.go:182-220 | an address is in the expansion if and only if it has the prefix and, for prefixes up to 30, is neither network nor broadcast address |
| IpPool.HostsOrdered | plate/internal/ippool/ippool.go:199-219 | increasing, without repeats, and as many as the prefix leaves: one, two or 2^(32 - p) - 2 |
| IpPool.ParsePoolSpec | plate/internal/ippool/ippool.go:142-172 | the first error, the error for nothing, or the first occurrences of all parts' addresses |
| IpPool.FirstsInOrder | plate/internal/ippool/ippool.go:160-166 | the pool lists exactly addresses that occur, in the order of their first occurrence |
| IpPool.ExpandedIff | plate/internal/ippool/ippool.go:142-172 | without a bad part the pool has exactly the addresses of its parts: hosts, and those with a block's prefix less its two ends |
| IpPool.FirstBad | plate/internal/ippool/ippool.go:150-158 | the first bad part decides the error |
| IpPool.SingleHosts | plate/internal/ippool/ippool.go:174-180 | distinct single hosts are the pool, in their order |
| IpAllocator.Pool.Assign | plate/internal/ippool/ippool.go:73-97 | takes AssignStep |
| IpAllocator.Pool.Release | plate/internal/ippool/ippool.go:99-108 | forgets exactly that VM's address |
| IpAllocator.Pool.GetStatus | plate/internal/ippool/ippool.go:118-140 | the free count it reports is the number of pool addresses that nobody holds |
| IpAllocator.FirstFreeIs | plate/internal/ippool/ippool.go:87-96 | the address found is free and every one before it is used; none is found only if all are used |
| IpAllocator.AssignKeeps | plate/internal/ippool/ippool.go:73-97 | an assignment stays injective into the pool, changes only that VM, gives a new VM an address nobody held, and repeating it changes nothing |
| IpAllocator.ReleasedIsFree | plate/internal/ippool/ippool.go:99-108 | after a release another VM gets an address |
| IpAllocator.FreeIsUnused | plate/internal/ippool/ippool.go:130-138 | the reported free count is the number of pool addresses nobody holds |
| IpAllocator.ExhaustedIffFull | plate/internal/ippool/ippool.go:83-96 | a new VM is refused if and only if every address is held |
| PlateControl.StepKeeps | plate/internal/control/control.go:27-299 | every operation with any failures keeps: addresses are held by exactly the live VMs, each its recorded one, injectively from the pool |
| PlateControl.RunKeeps | plate/internal/control/control.go:27-299 | so after any operations |
| PlateControl.NoSharedAddress | plate/internal/control/control.go:95-141 | no two live VMs share an address, all are from the pool, and free plus live is the pool's size |
| PlateControl.CreateShape | plate/internal/control/control.go:57-156 | what a create does to store and pool in each of its outcomes |
| PlateControl.CreateFails | plate/internal/control/control.go:57-115 | a failed create gives its address back; one refused before the backend is asked changes nothing |
| PlateControl.RefusedIffFull | plate/internal/control/control.go:95-104 | a create is refused for lack of addresses if and only if it passes the earlier tests and all addresses of a non-empty pool are held |
| PlateControl.SucceedsIff | plate/internal/control/control.go:57-115 | a create succeeds if and only if it has a name and a known plan, an address is free or the pool is empty, and the backend succeeds |
| PlateControl.CreateSucceeds | plate/internal/control/control.go:57-156 | a successful create stores one record with the backend's id and an address nobody held |
| PlateControl.RequestSurvives | plate/internal/control/control.go:84-137 | the VM keeps the request's keys, account, firewall and hostname, or their defaults, whatever the sync reports |
| PlateControl.PlacesStay | plate/internal/control/control.go:27-299 | no other operation than create and delete changes which VMs there are, their backend ids or addresses |
| PlateControl.StartAndStop | plate/internal/control/control.go:158-202 | a start sets the start time and status, a stop clears them whatever the sync reports, a failure changes nothing |
| PlateControl.OthersStay | plate/internal/control/control.go:43-299 | an operation on one VM leaves every other record alone |
| PlateControl.RulesLast | plate/internal/control/control.go:158-282 | a VM's rules change by an update that the backend applied, and by no start, stop, renaming or snapshot |
| PlateControl.HostnameLasts | plate/internal/control/control.go:158-282 | its hostname changes by a renaming alone, to the trimmed name |
| PlateControl.SnapshotsPileUp | plate/internal/control/control.go:255-282 | a new snapshot goes behind the others; a listing replaces them and changes nothing else; a failure of either changes nothing |
| PlateControl.RestoreTakesOver | plate/internal/control/control.go:284-299 | a restore takes over what the backend reports if it reports a status, and stamps the record either way |
| PlateControl.DeleteUndoesCreate | plate/internal/control/control.go:57-223 | a successful delete after a successful create restores the plane |
| PlateControl.FailedRecord | plate/internal/control/control.go:78-115 | every field of the record stored when the backend refuses: the request trimmed, the plan "small" by default, the error, both times |
| PlateControl.CreatedRecord | plate/internal/control/control.go:78-139 | and of the record of a new VM of which the backend reports nothing yet |
| PlateControl.ReportedRecord | plate/internal/control/control.go:121-135 | with a report the record is the report but for the fields of RequestSurvives and identity |
| PlateControl.RunningRecord | plate/internal/control/control.go:158-202 | a start and a stop change exactly these fields |
| PlateControl.ChangedRecord | plate/internal/control/control.go:43-282 | and so do a get, a rule update, a renaming and the snapshot calls |
| PlateControl.ListedRecord | plate/internal/control/control.go:27-41 | a listing stores what the backend reports of each VM whose sync succeeds |
| PlateControl.MissingAndDeleted | plate/internal/control/control.go:204-223 | operations on a missing VM and refused deletes change nothing; a delete takes away record and address alone |
| PlateControl.CreateErrors | plate/internal/control/control.go:57-72 | what a create is refused with before anything is tried |
| PlateControl.UpdateAnswers | plate/internal/control/control.go:158-299 | an operation answers with the record as stored, or not found, or the backend's failure |
| PlatePlane.Plane.CreateVm | plate/internal/control/control.go:57-156 | the statements in the source's order take CreateStep |
| PlatePlane.Plane.StartVm | plate/internal/control/control.go:158-178 | as specified by Update with Started, with the source's errors |
| PlatePlane.Plane.StopVm | plate/internal/control/control.go:180-202 | as specified by Update with Halted |
| PlatePlane.Plane.DeleteVm | plate/internal/control/control.go:204-223 | record and address go together, or neither |
| PlatePlane.Plane.GetVm | plate/internal/control/control.go:43-55 | refreshes the record if the sync succeeds and answers with it either way |
| PlatePlane.Plane.ListVms | plate/internal/control/control.go:27-41 | refreshes exactly the records whose sync succeeds, and returns every record once as it is then stored |
| PlatePlane.Plane.RestoreVm | plate/internal/control/control.go:284-299 | as specified by Update with Restored |
| PlatePlane.Plane.UpdateFirewall | plate/internal/control/control.go:225-240 | stores the rules only if the backend applies them |
| PlatePlane.Plane.UpdateHostname | plate/internal/control/control.go:242-253 | stores the trimmed hostname |
| PlatePlane.Plane.CreateSnapshot | plate/internal/control/control.go:255-268 | stores the new snapshot behind the others, unless the backend fails |
| PlatePlane.Plane.ListSnapshots | plate/internal/control/control.go:270-282 | replaces the stored list by the backend's, unless it fails |
| HotwireScore.Registry.Update | hotwire/internal/control/registry.go:36-44 | replaces the agent's report and stamps it if it has no time |
| HotwireScore.Registry.Remove | hotwire/internal/control/registry.go:67-71 | forgets exactly that agent |
| HotwireScore.Registry.Snapshot | hotwire/internal/control/registry.go:46-54 | every agent once, in an arbitrary order |
| HotwireScore.ScoreAll | hotwire/internal/control/scorer.go:35-51 | each agent's score, their sum over the set of agents, and whether any is stale |
| HotwireScore.SortKeeps | hotwire/internal/control/scorer.go:53-55 | sorting by name keeps the entries and orders them strictly |
| HotwireScore.Score | hotwire/internal/control/scorer.go:27-86 | returns the table of the registered agents: one entry each, by name, weight = score / total, zero for stale ones, and the reason |
| HotwireScore.EntryIs | hotwire/internal/control/scorer.go:39-62 | a backend silent for longer than the threshold, or never heard of, is stale with score and weight zero; one heard of within it is not stale and has a positive weight exactly if its error rate is below 1 |
| HotwireScore.ReasonIs | hotwire/internal/control/scorer.go:77-83 | every agent has an entry; the reason names stale backends exactly when some report is too old or missing, and no backends exactly when there is none |
| HotwireScore.ScoreIs | hotwire/internal/control/scorer.go:46-48 | score times latency, which counts as at least 1, is the share of requests answered |
| HotwireScore.Proportional | hotwire/internal/control/scorer.go:57-62 | weights are in proportion to scores |
| HotwireScore.WeightsSum | hotwire/internal/control/scorer.go:57-62 | weights are not negative and sum to exactly 1 if some fresh backend has an error rate below 1, otherwise all are zero |
| HotwireScore.OneTable | hotwire/internal/control/scorer.go:28-55 | there is only one such table, so the map's order does not show |
| HotwireScore.Favours | hotwire/internal/control/scorer.go:46-48 | a fresh backend that is no slower and no worse gets no less, and strictly more if better and answering |
| HotwireServer.ToUpdate | hotwire/internal/control/server.go:248-264 | one entry per backend, in order, with its name, weight, score, p99 and error rate; the reason and the time |
| HotwireServer.ToAssignments | hotwire/internal/control/server.go:266-277 | one assignment per backend, in order |
| HotwireServer.FingerprintFrom | hotwire/internal/control/server.go:279-285 | reason and weights by name |
| HotwireServer.PrintOfTable | hotwire/internal/control/server.go:279-285 | a table's fingerprint holds every backend's weight and nothing else |
| HotwireServer.Equal | hotwire/internal/control/server.go:287-297 | true exactly if reasons and sizes agree and every name of the first has the same weight in the second, a missing one counting as zero |
| HotwireServer.UnchangedIff | hotwire/internal/control/server.go:287-297 | two tables' weights found equal give every name the same effective weight if and only if the new one has a positive weight or the old one has none |
| HotwireServer.MissedChange | hotwire/internal/control/server.go:291-295 | a backend replaced by one that always fails is not noticed |
| HotwireServer.Server.Rebalance | hotwire/internal/control/server.go:189-223 | announces a changed table to all, keeps the effective weights of the last announcement equal to the table's whenever the table has a positive weight, and otherwise changes nothing |
| HotwireServer.Server.DeliverAll | hotwire/internal/control/server.go:204-210 | channels with room get the update, full ones are dropped, in any order |
| HotwireServer.Server.PushAll | hotwire/internal/control/server.go:211-221 | each metric stream with room gets its own backend's weight |
| HotwireServer.PushedWeight | hotwire/internal/control/server.go:211-221 | a backend's stream with fewer than eight waiting assignments gets the weight of that backend in the table, and no other stream changes |
| HotwireServer.DeliveredIs | hotwire/internal/control/server.go:204-210 | fewer than four waiting updates leave room for one more; with four the subscriber is dropped |
| HotwireServer.Server.AddSubscriber | hotwire/internal/control/server.go:233-240 | a fresh id with an empty channel |
| HotwireServer.Server.RemoveSubscriber | hotwire/internal/control/server.go:242-246 | forgets exactly that one |
| HotwireServer.Server.Receive | hotwire/internal/control/server.go:157-160 | takes the oldest update; received and queued together stay all announcements since joining |
| HotwireServer.DeliveredOk | hotwire/internal/control/server.go:204-210 | a subscriber still registered has missed no announcement since it joined |
| HotwireServer.DrainedHasLatest | hotwire/internal/control/server.go:153-162 | once it emptied its channel it holds the latest announcement |
| HotwireSums.BeforeAt | hotwire/internal/control/scorer.go:53-55 | names are ordered by the first byte in which they differ, shorter ones first |
| RedditCrawl.NormalizeTwice | movie/internal/scraper/reddit_discover.go:22-28 | normalizing is idempotent on a name if and only if its result does not begin with the prefix |
| RedditCrawl.NormalizeIs | movie/internal/scraper/reddit_discover.go:16-28 | a name without prefix and spaces, in small letters, unless it is one of the thirteen blocked ones |
| RedditCrawl.CaseCountsOnce | movie/internal/scraper/reddit_discover.go:91-105 | names that differ in capitals only count once |
| RedditCrawl.TestedNames | movie/internal/scraper/reddit_discover_test.go:5-12 | the two names of the repository's own test |
| RedditCrawl.SameKeyIff | movie/internal/scraper/types.go:12-17 | two movies share a key if and only if title and year agree, years that are not positive counting as none, or one without a year is titled like the other's key |
| RedditCrawl.KeysCanMeet | movie/internal/scraper/types.go:12-17 | two movies of different titles with one key |
| RedditCrawl.EnqueueAppends | movie/internal/scraper/reddit_discover.go:91-105 | a new name waits behind the others while there is room |
| RedditCrawl.AddThreadQueues | movie/internal/scraper/reddit_discover.go:107-119 | so does a new thread, and its subreddit with it |
| RedditCrawl.TakeMoviesAppends | movie/internal/scraper/reddit_discover.go:130-141 | new movies go behind the old ones and carry their thread's source |
| RedditCrawl.DefaultsAre | movie/internal/scraper/reddit_discover.go:75-82 | the default limits, and the text of a source |
| GoStrings.TrimAround | movie/internal/scraper/reddit_discover.go:22-28 | Go's TrimSpace on ASCII: the six spaces around a text come off and nothing else |
| GoStrings.LowerIs | movie/internal/scraper/reddit_discover.go:22-28 | Go's ToLower on ASCII, letter by letter |
| RedditCrawl.EnqueueKeeps | movie/internal/scraper/reddit_discover.go:91-105 | frontier and visited names stay disjoint, without repeats, crawlable and within the limit |
| RedditCrawl.AddThreadKeeps | movie/internal/scraper/reddit_discover.go:107-119 | threads stay distinct and within the limit |
| RedditCrawl.ScrapeKeeps | movie/internal/scraper/reddit_discover.go:123-141 | whatever a page says, scraping keeps all three bounds |
| RedditCrawl.VisitKeeps | movie/internal/scraper/reddit_discover.go:181-186 | visiting the next name keeps them and makes one more visited name |
| RedditCrawl.RunBounded | movie/internal/scraper/reddit_discover.go:74-217 | after any steps: each name at most once and never waiting after its visit, at most maxSubs; each thread scraped at most once, at most maxThreads; at most Limit movies with distinct keys |
| RedditCoverage.NothingForgotten | movie/internal/scraper/reddit_discover.go:91-143 | in every run, each name, thread and movie ever offered is kept, unless it is not crawlable or nameless or the limit for its kind is reached |
| RedditCoverage.StepGrows | movie/internal/scraper/reddit_discover.go:91-143 | no step forgets a name, thread or movie, and each keeps what it is offered or has reached the limit |
| RedditCrawling.Crawler.EnqueueSub | movie/internal/scraper/reddit_discover.go:91-105 | the closure, with its loop over the frontier, takes Enqueue |
| RedditCrawling.Crawler.AddThread | movie/internal/scraper/reddit_discover.go:107-119 | the closure takes AddThread |
| RedditCrawling.Crawler.ScrapeNext | movie/internal/scraper/reddit_discover.go:123-141 | one turn asks for the page of the thread that waits longest and takes Scrape with it |
| RedditCrawling.Crawler.ScrapePending | movie/internal/scraper/reddit_discover.go:121-143 | ends with nothing pending, enough movies or a cancelled context; does nothing when nothing may be scraped |
| RedditCrawling.Crawler.SearchAll | movie/internal/scraper/reddit_discover.go:157-177 | records a refusal exactly when it stops for one; otherwise every query is asked for unless the caller cancels, and the threads answered are added in order |
| RedditCrawling.Crawler.ListFiltered | movie/internal/scraper/reddit_discover.go:170-176 | adds the threads in order but for those whose title mentions a series or tv show |
| RedditCrawling.FilteredIff | movie/internal/scraper/reddit_discover.go:170-176 | exactly the threads whose title in small letters contains neither are added |
| RedditCrawling.Crawler.SearchInside | movie/internal/scraper/reddit_discover.go:196-210 | every query is asked for inside the subreddit, unless cancelled, refused or out of threads, and every thread answered is added |
| RedditCrawling.Crawler.CrawlNext | movie/internal/scraper/reddit_discover.go:180-213 | visits the name that waits longest, asks for its hot list and adds it, searches inside it and scrapes what is pending |
| RedditCrawling.Crawler.VisitNext | movie/internal/scraper/reddit_discover.go:181-186 | the name taken was never visited, so the source's test for that never fires |
| RedditCrawling.Crawler.CrawlFrontier | movie/internal/scraper/reddit_discover.go:180-213 | the main loop ends, for one of its four reasons, and has searched every visited subreddit for every query unless stopped |
| RedditCrawling.Crawler.Discover | movie/internal/scraper/reddit_discover.go:74-217 | the crawl's steps are exactly those that the given names and Reddit's logged answers call for, in order; it ends within all limits; unless cancelled or refused it asked every query, globally and (with threads to spare) in every visited subreddit; and unless satisfied too it visited every name kept and scraped every thread added |
| MinStrings.TrimSpace | minstd/strings/strings.go:3-12 | the middle of the text between blanks, tabs, line feeds and carriage returns, which are none of its ends |
| MinStrings.TrimAround | minstd/strings/strings.go:3-12 | spaces around a trimmed text come off and nothing else |
| MinStrings.TrimEmptyIff | minstd/strings/strings.go:3-12 | exactly the texts of those four characters are trimmed to nothing |
| MinStrings.Index | minstd/strings/strings.go:38-51 | the first occurrence, or -1 if there is none |
| MinStrings.Cut | minstd/strings/strings.go:53-59 | the text around the first separator, or the whole text when there is none |
| MinStrings.SplitN | minstd/strings/strings.go:18-36 | the loop computes Split; nothing for n below one, the whole text without a separator |
| MinStrings.SplitJoin | minstd/strings/strings.go:18-36 | the parts joined are the text; no part but the n-th contains the separator |
| MinBufio.Reader.Read | minstd/bufio/bufio.go:19-34 | hands over the next bytes of the stream without an error and loses none; no bytes only for an empty array, or at the end with the connection's error |
| MinBufio.Reader.ReadString | minstd/bufio/bufio.go:36-65 | the stream's next line, or what is left with the connection's error, however the reads were cut |
| MinBufio.Reader.ScanBuffer | minstd/bufio/bufio.go:56-63 | the inner loop stops at the delimiter or at the buffer's end |
| MinBufio.LineEnds | minstd/bufio/bufio.go:56-63 | a line ends with its first delimiter |
| MinHttp.ReadRequest | minstd/http/request.go:17-54 | the answer is a function of the connection's concatenated bytes and its end, the one that RequestRead, RequestCut, BadLine and LineSkipped describe |
| MinHttp.RequestStays | minstd/http/request.go:38-53 | a complete request stays the same whatever bytes follow and however the stream ends |
| MinHttp.HeaderRead | minstd/http/request.go:38-52 | written header lines read back, a later field replacing an earlier one of its name |
| MinHttp.CollectDistinct | minstd/http/request.go:33-51 | with distinct names the map holds every field and nothing else |
| MinHttp.RequestRead | minstd/http/request.go:17-54 | a written request (request line, fields, blank line; sections 3 and 5 of RFC 9112), its lines ended by line feeds with or without carriage returns and its gaps made of blanks and tabs, reads back as exactly its method, path, protocol and header map |
| MinHttp.RequestCut | minstd/http/request.go:17-42 | a request that stops anywhere before its blank line is over is answered with the error the stream ended with |
| MinHttp.BadLine | minstd/http/request.go:23-27 | a first line of one word or none is refused |
| MinHttp.LineSkipped | minstd/http/request.go:43-50 | a header line without a colon is passed over, and a blank one ends the header |
| MinHttp.LocalhostRequest | minstd/http/server_test.go:43 | the request of the repository's own test |
| Ipv1Packet.ValidateAddr | ipv1/packet.go:80-95 | accepts exactly the non-empty strings of letters, digits and hyphens |
| Ipv1Packet.Encode | ipv1/packet.go:25-46 | refuses as the source does, and otherwise fills a buffer laid out as the packet |
| Ipv1Packet.DecodeLaid | ipv1/packet.go:48-78 | bytes laid out as a packet decode to it |
| Ipv1Packet.EncodeThenDecode | ipv1/packet.go:25-78 | decoding what Encode wrote gives the packet back, for every packet it accepts |
| Ipv1Packet.DecodeThenEncode | ipv1/packet.go:25-78 | encoding what was decoded gives exactly the same bytes if and only if both addresses are at most 64 bytes |
| Ipv1Packet.DecodableIff | ipv1/packet.go:48-112 | decoding yields exactly the packets whose addresses are valid and shorter than 2^16 bytes |
| Ipv1Packet.LongAddress | ipv1/packet.go:35-37 | a packet with an address of 65 letters decodes and is refused by Encode |
| Ipv1Packet.DecodeInjective | ipv1/packet.go:48-78 | two byte strings that decode to one packet are equal |
| Ipv1Packet.AcceptedIff | ipv1/packet.go:25-37 | Encode accepts exactly two plain addresses of 1 to 64 bytes |
| Ipv1Packet.PacketBytes | ipv1/packet.go:39-45 | the layout byte by byte: version 1, and lengths in two bytes, high byte first |
| Ipv1Packet.DecodeShort | ipv1/packet.go:48-68 | which texts are too short, and that a wrong version is found first |
| Ipv1Packet.DecodeAddrs | ipv1/packet.go:70-77 | then the addresses decide, the source first |
| Ipv1Registry.Registry.Register | ipv1/registry.go:40-56 | validates, then binds exactly that name |
| Ipv1Registry.RegisterAnswers | ipv1/registry.go:40-56 | no error if and only if the address is a non-empty string of letters, digits and hyphens and the endpoint is not empty; then exactly that name is bound |
| Ipv1Registry.LookupIsLastBound | ipv1/registry.go:40-96 | after any calls Lookup answers with the endpoint that Register or Allocate bound last to the address, and with the not-found error exactly if none did |
| Ipv1Registry.Registry.Allocate | ipv1/registry.go:73-96 | the loop ends (fewer numerals in use lie ahead each turn) and takes AllocateStep |
| Ipv1Registry.LeastFree | ipv1/registry.go:84-89 | the least number from Next on whose numeral is unused |
| Ipv1Registry.AllocatesLeast | ipv1/registry.go:84-94 | the address handed out is at most any free numeral from Next on |
| Ipv1Registry.NeverTwice | ipv1/registry.go:40-96 | over any mix of calls an address handed out was neither registered nor handed out before, and is a valid address |
| Ipv1Registry.FirstIsOne | ipv1/registry.go:73-96 | the first address handed out is 1, and none without an endpoint |

## Left out

- Sockets, TUN devices, gRPC, HTTP clients, page scraping by regular expressions, JSON files, clocks, random ids and command lines: they appear as arguments, arbitrary answers or stored values.
- Encryption of cloak packets and the SOCKS handshake: frames arrive as they were sent, or not at all.
- cloak opens and replies, and reaping of idle peers: one stream per id, opened once; a second open would reset the receiving end.
- cloak writes after a failed write: the callers stop after an error, so the failed state is final.
- CloakStream.Stream.Deliver: the wait for room in a full inbox of an open stream is a step that is not enabled yet, not a blocked call.
- redban write failures: storing always succeeds, and a stored file always holds a time.
- RedBan.Bucket.Take: times and waits are reals, without the truncation to nanoseconds; amounts are not negative and the rate is positive.
- RateLimiting.RateLimiter.Allow: tokens are reals, without floating-point rounding.
- surf finders and the query helpers over nodes: tree recursions with nothing hard to prove.
- HtmlSafety.NoPanic: for arbitrary text the condition is enough and not necessary; HtmlCutOff.CutPanicsIff is exact for well-formed text cut off inside a closing tag, and other malformed text that ends in an unclosed closing tag has no theorem of its own.
- HtmlWritten.ParseWritten: closing tags in capitals, blanks between a comment and a closing tag, and blanks alone inside an element are not part of the syntax; there the closing tag is met as in HtmlUnfinished.WrongClose.
- HtmlUnfinished.OpenAtEnd: blanks between a comment and an element left open are not part of the syntax.
- HtmlParsing.HtmlParser.ParseElement: a char stands for a byte, and names with bytes above 127 are not lower-cased.
- HtmlParsing.HtmlParser.Parse: the same.
- relay replay goroutines after an unsubscribe: a send on the closed channel from there is possible in the source and is not excluded; NoSendAfterClose is about Publish alone.
- RelayServer.EventStore.Publish: event ids, times, payload copies and metadata come with the event; the store holds the ring as a value, and the ring as an array is RelayRing.RingBuffer.
- plate account ledger, provider names, plan limits and IPv6 pools: no effect on addresses or records modelled here.
- PlatePlane.Plane.CreateVm: writes to the store succeed, ids are fresh, and the backend's sync keeps id, backend id and address; firewall calls are ignored as in the source.
- IpPool.ParsePoolSpec: parts come already split and parsed into addresses and prefixes; the text forms are left to the standard library.
- hotwire ReportMetrics and SubscribeWeights streams: their effect on the registry and the subscribers is modelled, the first message of a subscription is not.
- HotwireScore.Score: metrics are reals, so neither rounding nor NaN occurs.
- RedditCrawling.Crawler.Discover: the client's other state is not modelled; names are ASCII.
- RedditCrawl title and subreddit cues (recommendationTitle, looksLikeMovieSub): plain substring tests that only filter answers already arbitrary.
- minstd response writing, server loop, numbers and mutex: outside request parsing.
- ipv1 registry file and List: state is what the file holds; numbers do not overflow.
- Integers other than sequence numbers, address bytes and length prefixes are unbounded.
- The research scripts, model files, generated code and display code of the repository.
