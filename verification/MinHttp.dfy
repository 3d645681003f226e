/** minstd's request reader: a request line and header lines up to a blank line. */
module MinHttp {
  import opened Common
  import opened MinStrings
  import opened MinBufio

  datatype Request = Request(verb: string, path: string, proto: string, header: map<string, string>)

  function Ending(final: Option<IoError>): IoError {
    if final.Some? then final.value else Eof
  }

  function WithLine(header: map<string, string>, line: string): map<string, string> {
    var p := CutAt(line, ":");
    if p.found then header[Trim(p.before) := Trim(p.after)] else header
  }

  function ParseHeader(p: string, header: map<string, string>, final: Option<IoError>):
    Result<map<string, string>, IoError>
    decreases |p|
  {
    var (line, rest, ok) := NextLine(p, '\n');
    if !ok then Err(Ending(final))
    else if Trim(line) == "" then Ok(header)
    else ParseHeader(rest, WithLine(header, Trim(line)), final)
  }

  function Assemble(parts: seq<string>, header: map<string, string>): Request
    requires |parts| >= 2
  {
    Request(parts[0], parts[1], if |parts| == 3 then parts[2] else "", header)
  }

  /** What a byte stream says, given how it ends. */
  function ParseRequest(p: string, final: Option<IoError>): Result<Request, IoError> {
    var (line, rest, ok) := NextLine(p, '\n');
    if !ok then Err(Ending(final))
    else
      var parts := Split(Trim(line), " ", 3);
      if |parts| < 2 then Err(UnexpectedEof)
      else
        var header := ParseHeader(rest, map[], final);
        if header.Err? then Err(header.error) else Ok(Assemble(parts, header.value))
  }

  /** The answer is a function of the bytes alone: how the connection cuts them into reads
      does not show. */
  method ReadRequest(conn: Conn) returns (r: Result<Request, IoError>)
    requires conn.Valid()
    modifies conn
    ensures r == ParseRequest(old(Concat(conn.chunks)), conn.final)
  {
    hide Split, Trim, NextLine;
    var br := new Reader(conn);
    var line, err := br.ReadString('\n');
    if err.Some? {
      return Err(err.value);
    }
    line := TrimSpace(line);
    var parts := SplitN(line, " ", 3);
    if |parts| < 2 {
      return Err(UnexpectedEof);
    }
    var header: map<string, string> := map[];
    ghost var start := br.Pending();
    while true
      invariant br.Valid() && br.src == conn && fresh(br) && fresh(br.buf)
      invariant ParseHeader(br.Pending(), header, conn.final) == ParseHeader(start, map[], conn.final)
      decreases |br.Pending()|
    {
      var hline, err := br.ReadString('\n');
      if err.Some? {
        return Err(err.value);
      }
      hline := TrimSpace(hline);
      if hline == "" {
        break;
      }
      var p := Cut(hline, ":");
      if !p.found {
        continue;
      }
      var key := TrimSpace(p.before);
      var value := TrimSpace(p.after);
      header := header[key := value];
    }
    r := Ok(Assemble(parts, header));
  }

  // ---------- bytes that come later do not change an answer ----------

  lemma {:induction false} LineStays(p: string, more: string, delim: char)
    requires delim in p
    ensures var (line, rest, _) := NextLine(p, delim);
            NextLine(p + more, delim) == (line, rest + more, true)
  {
    assert (p + more)[1..] == p[1..] + more;
    if p[0] != delim {
      LineStays(p[1..], more, delim);
    }
  }

  lemma {:induction false} HeaderStays(
      p: string, more: string, header: map<string, string>,
      final: Option<IoError>, final': Option<IoError>)
    requires ParseHeader(p, header, final).Ok?
    ensures ParseHeader(p + more, header, final') == ParseHeader(p, header, final)
    decreases |p|
  {
    var (line, rest, ok) := NextLine(p, '\n');
    LineStays(p, more, '\n');
    if Trim(line) != "" {
      HeaderStays(rest, more, WithLine(header, Trim(line)), final, final');
    }
  }

  /** A complete request stays the same whatever follows it and however the stream ends. */
  lemma RequestStays(p: string, more: string, final: Option<IoError>, final': Option<IoError>)
    requires ParseRequest(p, final).Ok?
    ensures ParseRequest(p + more, final') == ParseRequest(p, final)
  {
    var (line, rest, ok) := NextLine(p, '\n');
    LineStays(p, more, '\n');
    HeaderStays(rest, more, map[], final, final');
  }

  // ---------- writing a request and reading it back ----------

  datatype Field = Field(name: string, value: string)

  /** One-line spacing, as used between a colon and a value and before a line's end mark. */
  ghost predicate Gap(s: string) {
    forall i :: 0 <= i < |s| ==> s[i] == ' ' || s[i] == '\t' || s[i] == '\r'
  }

  lemma GapIsSpace(s: string)
    requires Gap(s)
    ensures AllSpace(s) && AllSpace(s + "\n") && '\n' !in s
  {
  }

  ghost predicate FieldOk(f: Field) {
    Trimmed(f.name) && Trimmed(f.value) && ':' !in f.name && '\n' !in f.name + f.value
  }

  ghost predicate LineOk(verb: string, path: string, proto: string) {
    && verb != "" && verb[0] !in " \t\n\r"
    && ' ' !in verb + path && '\n' !in verb + path + proto
    && Trimmed(proto)
    && (proto == "" ==> path != "" && path[|path| - 1] !in " \t\n\r")
  }

  function Core(verb: string, path: string, proto: string): string {
    verb + " " + path + (if proto == "" then "" else " " + proto)
  }

  function FieldLine(f: Field, gap: string, eol: string): string {
    f.name + ":" + gap + f.value + eol + "\n"
  }

  function HeaderText(fields: seq<Field>, gap: string, eol: string): string {
    if fields == [] then eol + "\n"
    else FieldLine(fields[0], gap, eol) + HeaderText(fields[1..], gap, eol)
  }

  function RequestText(
      verb: string, path: string, proto: string, fields: seq<Field>, gap: string, eol: string): string {
    Core(verb, path, proto) + eol + "\n" + HeaderText(fields, gap, eol)
  }

  /** The header map that a list of fields stands for: a later field replaces an earlier one. */
  function Collect(fields: seq<Field>, header: map<string, string>): map<string, string> {
    if fields == [] then header
    else Collect(fields[1..], header[fields[0].name := fields[0].value])
  }

  ghost predicate Names(fields: seq<Field>, header: map<string, string>) {
    && (forall f :: f in fields ==> f.name in header && header[f.name] == f.value)
    && (forall k :: k in header ==> exists f :: f in fields && f.name == k)
  }

  lemma {:induction false} CollectKeys(fields: seq<Field>, header: map<string, string>, k: string)
    ensures k in Collect(fields, header) <==> k in header || exists f :: f in fields && f.name == k
    ensures (forall f :: f in fields ==> f.name != k) && k in header ==> Collect(fields, header)[k] == header[k]
  {
    if fields != [] {
      var header' := header[fields[0].name := fields[0].value];
      CollectKeys(fields[1..], header', k);
      assert forall f :: f in fields <==> f == fields[0] || f in fields[1..];
    }
  }

  lemma {:induction false} CollectValue(fields: seq<Field>, header: map<string, string>, i: nat)
    requires i < |fields| && forall j :: i < j < |fields| ==> fields[j].name != fields[i].name
    ensures fields[i].name in Collect(fields, header)
    ensures Collect(fields, header)[fields[i].name] == fields[i].value
  {
    var header' := header[fields[0].name := fields[0].value];
    if i == 0 {
      CollectKeys(fields[1..], header', fields[0].name);
    } else {
      CollectValue(fields[1..], header', i - 1);
    }
  }

  /** With distinct names the map holds every field and nothing else. */
  lemma CollectDistinct(fields: seq<Field>)
    requires forall i, j :: 0 <= i < j < |fields| ==> fields[i].name != fields[j].name
    ensures Names(fields, Collect(fields, map[]))
  {
    var header := Collect(fields, map[]);
    forall f | f in fields
      ensures f.name in header && header[f.name] == f.value
    {
      var i :| 0 <= i < |fields| && fields[i] == f;
      CollectValue(fields, map[], i);
    }
    forall k | k in header
      ensures exists f :: f in fields && f.name == k
    {
      CollectKeys(fields, map[], k);
    }
  }

  lemma LineRead(line: string, rest: string)
    requires '\n' !in line
    ensures NextLine(line + "\n" + rest, '\n') == (line + "\n", rest, true)
  {
    assert (line + "\n")[..|line|] == line;
    LineFound(line + "\n" + rest, line + "\n", rest, '\n');
  }

  /** The first separator is where it was put. */
  lemma CutHere(left: string, sep: char, right: string)
    requires sep !in left
    ensures IndexFrom(left + [sep] + right, [sep], 0) == |left|
  {
    var s := left + [sep] + right;
    assert s[|left|..|left| + 1] == [sep];
    forall k: nat | k < |left|
      ensures !OccursAt(s, [sep], k)
    {
      assert s[k..k + 1] == [left[k]];
      assert left[k] in left;
    }
    FoundFirst(s, [sep], |left|);
  }

  lemma CutParts(left: string, sep: char, right: string)
    requires sep !in left
    ensures CutAt(left + [sep] + right, [sep]) == Parts(left, right, true)
  {
    var s := left + [sep] + right;
    CutHere(left, sep, right);
    assert s[..|left|] == left && s[|left| + 1..] == right;
  }

  lemma SplitHere(left: string, sep: char, right: string, n: int)
    requires sep !in left && n > 1
    ensures Split(left + [sep] + right, [sep], n) == [left] + Split(right, [sep], n - 1)
  {
    var s := left + [sep] + right;
    CutHere(left, sep, right);
    assert s[..|left|] == left && s[|left| + 1..] == right;
    SplitSteps(s, [sep], n, |left|);
  }

  lemma FieldTrim(f: Field, gap: string, eol: string, tail: string)
    requires FieldOk(f) && Gap(gap) && Gap(eol)
    requires tail == if f.value == "" then "" else gap + f.value
    ensures Trim(FieldLine(f, gap, eol)) == f.name + ":" + tail
  {
    var spaces := if f.value == "" then gap + eol + "\n" else eol + "\n";
    var core := f.name + ":" + tail;
    hide *;
    FieldCore(f, gap, tail);
    SpacesAround(gap, eol);
    FieldLineIs(f, gap, eol);
    assert f.name + ":" + gap + f.value + eol + "\n" == "" + core + spaces;
    TrimAround("", core, spaces);
  }

  lemma FieldLineIs(f: Field, gap: string, eol: string)
    ensures FieldLine(f, gap, eol) == f.name + ":" + gap + f.value + eol + "\n"
  {
  }

  lemma FieldCore(f: Field, gap: string, tail: string)
    requires FieldOk(f) && tail == if f.value == "" then "" else gap + f.value
    ensures Trimmed(f.name + ":" + tail)
  {
    var core := f.name + ":" + tail;
    assert core[0] == if f.name == "" then ':' else f.name[0];
    assert core[|core| - 1] == if f.value == "" then ':' else f.value[|f.value| - 1];
  }

  lemma SpacesAround(gap: string, eol: string)
    requires Gap(gap) && Gap(eol)
    ensures AllSpace("") && AllSpace(gap + eol + "\n") && AllSpace(eol + "\n")
  {
    GapIsSpace(gap);
    GapIsSpace(eol);
  }

  lemma FieldRead(f: Field, gap: string, eol: string, header: map<string, string>)
    requires FieldOk(f) && Gap(gap) && Gap(eol)
    ensures Trim(FieldLine(f, gap, eol)) != ""
    ensures WithLine(header, Trim(FieldLine(f, gap, eol))) == header[f.name := f.value]
  {
    var tail := if f.value == "" then "" else gap + f.value;
    assert ':' !in f.name;
    hide *;
    FieldTrim(f, gap, eol, tail);
    CutParts(f.name, ':', tail);
    WithLineIs(header, f.name, tail);
    FieldSides(f, gap, tail);
  }

  lemma WithLineIs(header: map<string, string>, name: string, tail: string)
    requires CutAt(name + ":" + tail, ":") == Parts(name, tail, true)
    ensures WithLine(header, name + ":" + tail) == header[Trim(name) := Trim(tail)]
  {}

  lemma FieldSides(f: Field, gap: string, tail: string)
    requires FieldOk(f) && Gap(gap) && tail == if f.value == "" then "" else gap + f.value
    ensures Trim(f.name) == f.name && Trim(tail) == f.value
  {
    TrimAround("", f.name, "");
    assert "" + f.name + "" == f.name;
    if f.value != "" {
      TrimAround(gap, f.value, "");
      assert gap + f.value + "" == tail;
    }
  }

  lemma {:induction false} HeaderRead(
      fields: seq<Field>, gap: string, eol: string, header: map<string, string>, final: Option<IoError>)
    requires (forall f :: f in fields ==> FieldOk(f)) && Gap(gap) && Gap(eol)
    ensures ParseHeader(HeaderText(fields, gap, eol), header, final) == Ok(Collect(fields, header))
    decreases |fields|
  {
    if fields == [] {
      assert eol + "\n" == eol + "\n" + "";
      LineRead(eol, "");
      TrimBlank(eol + "\n");
    } else {
      var f, rest := fields[0], HeaderText(fields[1..], gap, eol);
      FieldRead(f, gap, eol, header);
      var line := f.name + ":" + gap + f.value + eol;
      LineRead(line, rest);
      assert HeaderText(fields, gap, eol) == line + "\n" + rest;
      HeaderRead(fields[1..], gap, eol, header[f.name := f.value], final);
    }
  }

  lemma LineParts(verb: string, path: string, proto: string)
    requires LineOk(verb, path, proto)
    ensures Split(Core(verb, path, proto), " ", 3) ==
            if proto == "" then [verb, path] else [verb, path, proto]
  {
    if proto == "" {
      NoCut(path, ' ');
      hide IndexFrom;
      SplitStops(path, " ", 2);
      assert Core(verb, path, proto) == verb + " " + path;
      SplitHere(verb, ' ', path, 3);
    } else {
      var tail := path + " " + proto;
      assert Core(verb, path, proto) == verb + " " + tail;
      hide Split;
      SplitHere(verb, ' ', tail, 3);
      SplitHere(path, ' ', proto, 2);
      SplitStops(proto, " ", 1);
    }
  }

  lemma NoCut(s: string, sep: char)
    requires sep !in s
    ensures IndexFrom(s, [sep], 0) == -1
  {
    forall k: nat
      ensures !OccursAt(s, [sep], k)
    {
      if k < |s| {
        assert s[k..k + 1] == [s[k]];
      }
    }
  }

  lemma CoreTrim(verb: string, path: string, proto: string, eol: string)
    requires LineOk(verb, path, proto) && Gap(eol)
    ensures Trim(Core(verb, path, proto) + eol + "\n") == Core(verb, path, proto)
    ensures '\n' !in Core(verb, path, proto) + eol
  {
    var core := Core(verb, path, proto);
    assert core[0] == verb[0];
    assert core[|core| - 1] == if proto == "" then path[|path| - 1] else proto[|proto| - 1];
    GapIsSpace(eol);
    TrimAround("", core, eol + "\n");
    assert "" + core + (eol + "\n") == core + eol + "\n";
  }

  lemma Assembled(line: string, rest: string, parts: seq<string>, header: map<string, string>, final: Option<IoError>)
    requires '\n' !in line
    requires parts == Split(Trim(line + "\n"), " ", 3) && |parts| >= 2
    requires ParseHeader(rest, map[], final) == Ok(header)
    ensures ParseRequest(line + "\n" + rest, final) == Ok(Assemble(parts, header))
  {
    hide Split, Trim, NextLine, ParseHeader;
    LineRead(line, rest);
  }

  /** A written request reads back as itself, whatever follows its blank line. */
  lemma RequestRead(
      verb: string, path: string, proto: string, fields: seq<Field>, gap: string, eol: string,
      body: string, p: string, final: Option<IoError>)
    requires LineOk(verb, path, proto) && Gap(gap) && Gap(eol)
    requires forall f :: f in fields ==> FieldOk(f)
    requires p == RequestText(verb, path, proto, fields, gap, eol) + body
    ensures ParseRequest(p, final) == Ok(Request(verb, path, proto, Collect(fields, map[])))
  {
    var line, rest := Core(verb, path, proto) + eol, HeaderText(fields, gap, eol);
    var parts := if proto == "" then [verb, path] else [verb, path, proto];
    assert RequestText(verb, path, proto, fields, gap, eol) == line + "\n" + rest;
    assert Assemble(parts, Collect(fields, map[])) == Request(verb, path, proto, Collect(fields, map[]));
    hide *;
    CoreTrim(verb, path, proto, eol);
    LineParts(verb, path, proto);
    HeaderRead(fields, gap, eol, map[], final);
    Assembled(line, rest, parts, Collect(fields, map[]), final);
    RequestStays(line + "\n" + rest, body, final, final);
  }

  // ---------- lines that say nothing, and streams that stop too early ----------

  /** A header line without a colon is passed over, unless it is blank, which ends the header. */
  lemma LineSkipped(line: string, rest: string, header: map<string, string>, final: Option<IoError>)
    requires '\n' !in line && ':' !in line
    ensures ParseHeader(line + "\n" + rest, header, final) ==
            if AllSpace(line) then Ok(header) else ParseHeader(rest, header, final)
  {
    LineRead(line, rest);
    TrimEmptyIff(line + "\n");
    NoCut(Trim(line + "\n"), ':');
    BlankLine(line);
    hide Trim, NextLine, IndexFrom, AllSpace;
  }

  lemma BlankLine(line: string)
    ensures AllSpace(line + "\n") <==> AllSpace(line)
  {
    assert forall i :: 0 <= i < |line| ==> (line + "\n")[i] == line[i];
  }

  /** A first line of one word, or of none, is refused before any header is read. */
  lemma BadLine(word: string, gap: string, eol: string, rest: string, final: Option<IoError>)
    requires Trimmed(word) && ' ' !in word && '\n' !in word && Gap(gap) && Gap(eol)
    ensures ParseRequest(gap + word + eol + "\n" + rest, final) == Err(UnexpectedEof)
  {
    var line := gap + word + eol;
    GapIsSpace(gap);
    GapIsSpace(eol);
    LineRead(line, rest);
    assert line + "\n" == gap + word + (eol + "\n");
    TrimAround(gap, word, eol + "\n");
    NoCut(word, ' ');
    OneWord(word);
    hide Trim, NextLine, Split, AllSpace, Gap;
  }

  lemma OneWord(word: string)
    requires IndexFrom(word, " ", 0) < 0
    ensures |Split(word, " ", 3)| == 1
  {
    SplitStops(word, " ", 3);
  }

  /** Part of a line is no line. */
  lemma PartOfLine(line: string, q: string)
    requires '\n' !in line && q <= line
    ensures !NextLine(q, '\n').2
  {
    assert forall c :: c in q ==> c in line;
  }

  /** What is left of a text that was cut off behind its first line. */
  lemma CutBehind(line: string, rest: string, q: string)
    requires q <= line + "\n" + rest && |line| < |q|
    ensures q == line + "\n" + q[|line| + 1..] && q[|line| + 1..] <= rest
  {
    var all := line + "\n" + rest;
    assert q == all[..|q|];
    assert q[..|line| + 1] == all[..|line| + 1] == line + "\n";
    assert q[|line| + 1..] == rest[..|q| - |line| - 1];
  }

  lemma CutInside(line: string, rest: string, q: string)
    requires q <= line + "\n" + rest && |q| <= |line|
    ensures q <= line
  {
    var all := line + "\n" + rest;
    assert q == all[..|q|] == line[..|q|];
  }

  lemma FieldLineOk(f: Field, gap: string, eol: string)
    requires FieldOk(f) && Gap(gap) && Gap(eol)
    ensures var line := f.name + ":" + gap + f.value + eol;
            '\n' !in line && FieldLine(f, gap, eol) == line + "\n"
  {
    GapIsSpace(gap);
    GapIsSpace(eol);
  }

  lemma {:induction false} HeaderCut(
      fields: seq<Field>, gap: string, eol: string, q: string, header: map<string, string>, final: Option<IoError>)
    requires (forall f :: f in fields ==> FieldOk(f)) && Gap(gap) && Gap(eol)
    requires q <= HeaderText(fields, gap, eol) && q != HeaderText(fields, gap, eol)
    ensures ParseHeader(q, header, final) == Err(Ending(final))
    decreases |fields|
  {
    if fields == [] {
      GapIsSpace(eol);
      assert eol + "\n" == eol + "\n" + "";
      CutInside(eol, "", q);
      PartOfLine(eol, q);
    } else {
      var f, rest := fields[0], HeaderText(fields[1..], gap, eol);
      var line := f.name + ":" + gap + f.value + eol;
      FieldLineOk(f, gap, eol);
      FieldRead(f, gap, eol, header);
      assert HeaderText(fields, gap, eol) == line + "\n" + rest;
      hide Trim, NextLine, WithLine, FieldOk, FieldLine, Gap, HeaderText;
      if |q| <= |line| {
        CutInside(line, rest, q);
        PartOfLine(line, q);
      } else {
        CutBehind(line, rest, q);
        LineRead(line, q[|line| + 1..]);
        HeaderCut(fields[1..], gap, eol, q[|line| + 1..], header[f.name := f.value], final);
      }
    }
  }

  /** A request that stops anywhere before its blank line is over is answered with the error
      the stream ended with. */
  lemma RequestCut(
      verb: string, path: string, proto: string, fields: seq<Field>, gap: string, eol: string,
      q: string, final: Option<IoError>)
    requires LineOk(verb, path, proto) && Gap(gap) && Gap(eol)
    requires forall f :: f in fields ==> FieldOk(f)
    requires q <= RequestText(verb, path, proto, fields, gap, eol)
    requires q != RequestText(verb, path, proto, fields, gap, eol)
    ensures ParseRequest(q, final) == Err(if final.Some? then final.value else Eof)
  {
    var line, rest := Core(verb, path, proto) + eol, HeaderText(fields, gap, eol);
    assert RequestText(verb, path, proto, fields, gap, eol) == line + "\n" + rest;
    CoreTrim(verb, path, proto, eol);
    hide Trim, NextLine, HeaderText, Core, Gap, LineOk, FieldOk, RequestText, Split;
    if |q| <= |line| {
      CutInside(line, rest, q);
      PartOfLine(line, q);
    } else {
      var q' := q[|line| + 1..];
      CutBehind(line, rest, q);
      LineRead(line, q');
      LineParts(verb, path, proto);
      assert line + "\n" + q' != line + "\n" + rest;
      HeaderCut(fields, gap, eol, q', map[], final);
    }
  }

  lemma HostLine(host: Field, text: string)
    requires host == Field("Host", "localhost") && text == "Host: localhost\r\n\r\n"
    ensures HeaderText([host], " ", "\r") == text && FieldOk(host)
  {
    assert [host][1..] == [];
    assert HeaderText([], " ", "\r") == "\r\n";
    assert FieldLine(host, " ", "\r") == "Host: localhost\r\n";
  }

  lemma GetLine()
    ensures LineOk("GET", "/", "HTTP/1.1") && Core("GET", "/", "HTTP/1.1") == "GET / HTTP/1.1"
    ensures Gap(" ") && Gap("\r")
  {
  }

  lemma OneField(host: Field)
    ensures Collect([host], map[]) == map[host.name := host.value]
  {
    assert [host][1..] == [];
  }

  /** The request of the repository's own test. */
  lemma LocalhostRequest(p: string)
    requires p == "GET / HTTP/1.1" + "\r" + "\n" + "Host: localhost\r\n\r\n"
    ensures ParseRequest(p, None) == Ok(Request("GET", "/", "HTTP/1.1", map["Host" := "localhost"]))
  {
    hide *;
    var host, text := Field("Host", "localhost"), "Host: localhost\r\n\r\n";
    GetLine();
    HostLine(host, text);
    OneField(host);
    TextIs("GET", "/", "HTTP/1.1", [host], " ", "\r");
    assert p + "" == p;
    RequestRead("GET", "/", "HTTP/1.1", [host], " ", "\r", "", p, None);
  }

  lemma TextIs(verb: string, path: string, proto: string, fields: seq<Field>, gap: string, eol: string)
    ensures RequestText(verb, path, proto, fields, gap, eol) ==
            Core(verb, path, proto) + eol + "\n" + HeaderText(fields, gap, eol)
  {
  }
}
