/** Reading frames from a stream, and that what was written is read back. */
module FrameParser {
  import opened Options
  import opened Frames
  import Text
  import Decimal

  const B32: nat := 0x1_0000_0000

  datatype Failure = EndOfStream | BadNumber | BadLine | Mismatch | NoNumber | Malformed

  /** A frame and the rest of the stream, an error, or neither: a routing object that does not load gives no error. */
  datatype Outcome = Loaded(frame: FrameData, rest: Bytes) | Failed(why: Failure) | Nothing

  datatype Progress = Continue(frame: FrameData, rest: Bytes) | Stop(outcome: Outcome)

  type Loader = (nat, Bytes) -> Option<Object>

  // ---- lines and bodies ----

  /** The stream up to and including its first newline, and what follows. */
  function ReadLine(s: Bytes): (r: Option<(string, Bytes)>)
    ensures r.Some? ==> |r.value.0| > 0 && |r.value.0| + |r.value.1| == |s|
  {
    if s == "" then None
    else if s[0] == '\n' then Some(("\n", s[1..]))
    else
      var r := ReadLine(s[1..]);
      if r.None? then None else Some(([s[0]] + r.value.0, r.value.1))
  }

  lemma {:induction false} ReadLineOf(x: string, tail: Bytes)
    requires '\n' !in x
    ensures ReadLine(x + "\n" + tail) == Some((x + "\n", tail))
    decreases |x|
  {
    var s := x + "\n" + tail;
    if x == "" {
      assert s[1..] == tail && x + "\n" == "\n";
    } else {
      ReadLineOf(x[1..], tail);
      assert s[1..] == x[1..] + "\n" + tail;
      assert [x[0]] + (x[1..] + "\n") == x + "\n";
    }
  }

  /** n bytes, and one byte that is skipped. */
  function ReadBody(s: Bytes, n: nat): (r: Option<(Bytes, Bytes)>)
    ensures r.Some? ==> |r.value.1| < |s|
  {
    if |s| <= n then None else Some((s[..n], s[n + 1..]))
  }

  lemma ReadBodyOf(body: Bytes, tail: Bytes)
    ensures ReadBody(body + "\n" + tail, |body|) == Some((body, tail))
  {
    var s := body + "\n" + tail;
    assert s[..|body|] == body && s[|body| + 1..] == tail;
  }

  // ---- one entry ----

  function HeaderEntry(f: FrameData, key: string, len: string, s: Bytes): (p: Progress)
    ensures p.Continue? ==> |p.rest| < |s|
  {
    var n := Decimal.ParseUint(len, B32);
    if n.None? then Stop(Failed(BadNumber))
    else
      var b := ReadBody(s, n.value);
      if b.None? then Stop(Failed(EndOfStream))
      else Continue(f.(headers := f.headers + [Header(key, b.value.0, "", n.value)]), b.value.1)
  }

  function ROLine(load: Loader, f: FrameData, num: string, len: string, s: Bytes): (p: Progress)
    ensures p.Continue? ==> |p.rest| < |s|
  {
    var k, n := Decimal.ParseUint(num, B32), Decimal.ParseUint(len, B32);
    if k.None? || n.None? then Stop(Failed(BadNumber))
    else
      var b := ReadBody(s, n.value);
      if b.None? then Stop(Failed(EndOfStream))
      else
        var ro := load(k.value, b.value.0);
        if ro.None? then Stop(Nothing)
        else
          var e := ROEntry(ro.value, Decimal.Print(k.value), Decimal.Print(n.value));
          Continue(f.(ros := f.ros + [e]), b.value.1)
  }

  /** The number of a payload object, in dotted form, in decimal, or in both. */
  function PONumber(t: string): (r: (Option<nat>, Failure)) {
    var parts := Text.Split(':', t);
    if |parts| < 2 then (None, Malformed)
    else
      var i := if parts[1] == "" then None else Decimal.ParseUint(parts[1], B32);
      if parts[1] != "" && i.None? then (None, BadNumber)
      else
        var d := if parts[0] == "" then None else Decimal.ParseDotForm(parts[0]);
        if parts[0] != "" && d.None? then (None, BadNumber)
        else if i.Some? && d.Some? && i != d then (None, Mismatch)
        else if i.None? && d.None? then (None, NoNumber)
        else (if d.Some? then d else i, Malformed)
  }

  function POLine(f: FrameData, nums: string, len: string, s: Bytes): (p: Progress)
    ensures p.Continue? ==> |p.rest| < |s|
  {
    var k := PONumber(nums);
    if k.0.None? then Stop(Failed(k.1))
    else
      var num, n := k.0.value, Decimal.ParseUint(len, B32);
      if n.None? then Stop(Failed(BadNumber))
      else
        var b := ReadBody(s, n.value);
        if b.None? then Stop(Failed(EndOfStream))
        else
          var e := POEntry(Object(num, b.value.0), Decimal.Print(num), Decimal.DotForm(num), Decimal.Print(n.value));
          Continue(f.(pos := f.pos + [e]), b.value.1)
  }

  function DropLast(t: string): (r: string) {
    if t == "" then "" else t[..|t| - 1]
  }

  /** One line of the frame and what belongs to it. Lines of an unknown kind are passed over. */
  function Entry(load: Loader, f: FrameData, s: Bytes): (p: Progress)
    ensures p.Continue? ==> |p.rest| < |s|
  {
    var l := ReadLine(s);
    if l.None? then Stop(Failed(EndOfStream))
    else
      var (line, rest) := l.value;
      if line == "end\n" then Stop(Loaded(f, rest))
      else
        var tok := Text.Split(' ', line);
        if |tok| != 3 then Stop(Failed(BadLine))
        else
          var len := DropLast(tok[2]);
          if tok[0] == "kv" then HeaderEntry(f, tok[1], len, rest)
          else if tok[0] == "ro" then ROLine(load, f, tok[1], len, rest)
          else if tok[0] == "po" then POLine(f, tok[1], len, rest)
          else if tok[0] == "end" then Stop(Loaded(f, rest))
          else Continue(f, rest)
  }

  function LoadEntries(load: Loader, f: FrameData, s: Bytes): (r: Outcome)
    decreases |s|
  {
    match Entry(load, f, s)
    case Stop(o) => o
    case Continue(g, rest) => LoadEntries(load, g, rest)
  }

  function LoadFrame(load: Loader, s: Bytes): (r: Outcome) {
    if |s| < 27 then Failed(EndOfStream)
    else
      var length, seqno := Decimal.ParseUint(s[5..15], B32), Decimal.ParseUint(s[16..26], B32);
      if length.None? || seqno.None? then Failed(BadNumber)
      else LoadEntries(load, FrameData(s[..4], seqno.value, [], [], [], length.value), s[27..])
  }

  method LoadFrameFromStream(load: Loader, s: Bytes) returns (r: Outcome)
    ensures r == LoadFrame(load, s)
  {
    if |s| < 27 {
      return Failed(EndOfStream);
    }
    var length := Decimal.ParseUint(s[5..15], B32);
    if length.None? {
      return Failed(BadNumber);
    }
    var seqno := Decimal.ParseUint(s[16..26], B32);
    if seqno.None? {
      return Failed(BadNumber);
    }
    var f := FrameData(s[..4], seqno.value, [], [], [], length.value);
    var rest := s[27..];
    while true
      invariant LoadFrame(load, s) == LoadEntries(load, f, rest)
      decreases |rest|
    {
      var p := Entry(load, f, rest);
      match p
      case Stop(o) =>
        return o;
      case Continue(g, more) =>
        f, rest := g, more;
    }
  }

  // ---- what was written is read ----

  predicate Plain(t: string) {
    ' ' !in t && '\n' !in t
  }

  lemma DigitsPlain(t: string)
    requires Decimal.AllDigits(t)
    ensures Plain(t) && ':' !in t && '.' !in t
  {
  }

  lemma ThreeWords(a: string, b: string, c: string)
    requires Plain(a) && Plain(b) && ' ' !in c
    ensures Text.Split(' ', a + " " + b + " " + c) == [a, b, c]
  {
    Text.SplitPart(' ', c);
    Text.SplitFirst(' ', b, c);
    Text.SplitFirst(' ', a, b + " " + c);
    assert a + " " + b + " " + c == a + " " + (b + " " + c);
  }

  /** A line of three words. */
  lemma LineOf(a: string, b: string, c: string, tail: Bytes)
    requires Plain(a) && Plain(b) && Plain(c)
    ensures ReadLine(a + " " + b + " " + c + "\n" + tail) == Some((a + " " + b + " " + c + "\n", tail))
    ensures Text.Split(' ', a + " " + b + " " + c + "\n") == [a, b, c + "\n"]
  {
    var line := a + " " + b + " " + c;
    assert '\n' !in line;
    ReadLineOf(line, tail);
    ThreeWords(a, b, c + "\n");
    assert line + "\n" == a + " " + b + " " + (c + "\n");
  }

  /** An entry of a known kind: the first word decides, the rest is the body. */
  lemma EntryOf(load: Loader, f: FrameData, kind: string, b: string, c: string, body: Bytes)
    requires Plain(kind) && Plain(b) && Plain(c) && kind in ["kv", "ro", "po"]
    ensures var s := kind + " " + b + " " + c + "\n" + body;
      Entry(load, f, s) ==
        if kind == "kv" then HeaderEntry(f, b, c, body)
        else if kind == "ro" then ROLine(load, f, b, c, body)
        else POLine(f, b, c, body)
  {
    LineOf(kind, b, c, body);
    var line := kind + " " + b + " " + c + "\n";
    assert line[0] != 'e' && (c + "\n")[..|c|] == c;
  }

  function Reread(h: Header): (r: Header) {
    Header(h.key, h.content, "", |h.content|)
  }

  /** A header as it is added, with a key that is one word and a length of 32 bits. */
  predicate GoodHeader(h: Header) {
    Plain(h.key) && |h.content| < B32 && h.length == Decimal.Print(|h.content|)
  }

  predicate GoodRO(e: ROEntry) {
    && e.ro.num < B32 && |e.ro.content| < B32
    && e.ronum == Decimal.Print(e.ro.num) && e.length == Decimal.Print(|e.ro.content|)
  }

  predicate Loads(load: Loader, e: ROEntry) {
    load(e.ro.num, e.ro.content).Some?
  }

  /** The entry as it is read, with what the loader makes of the object. */
  function Reload(load: Loader, e: ROEntry): (r: ROEntry) {
    if Loads(load, e) then e.(ro := load(e.ro.num, e.ro.content).value) else e
  }

  predicate GoodPO(e: POEntry) {
    && e.po.num < B32 && |e.po.content| < B32 && e.length == Decimal.Print(|e.po.content|)
    && e.intNum == Decimal.Print(e.po.num) && e.dotNum == Decimal.DotForm(e.po.num)
  }

  lemma Grouped(a: Bytes, b: Bytes, c: Bytes, d: Bytes)
    ensures a + b + c + d == a + (b + c + d)
  {
  }

  lemma HeaderReads(load: Loader, f: FrameData, h: Header, tail: Bytes)
    requires GoodHeader(h)
    ensures Entry(load, f, PrintHeader(h) + tail) == Continue(f.(headers := f.headers + [Reread(h)]), tail)
  {
    DigitsPlain(h.length);
    var body := h.content + "\n" + tail;
    EntryOf(load, f, "kv", h.key, h.length, body);
    Grouped("kv" + " " + h.key + " " + h.length + "\n", h.content, "\n", tail);
    assert "kv" + " " == "kv ";
    Decimal.ParsePrint(|h.content|, B32);
    ReadBodyOf(h.content, tail);
  }

  lemma ROReads(load: Loader, f: FrameData, e: ROEntry, tail: Bytes)
    requires GoodRO(e)
    ensures Entry(load, f, PrintRO(e) + tail) ==
            if Loads(load, e) then Continue(f.(ros := f.ros + [Reload(load, e)]), tail) else Stop(Nothing)
  {
    DigitsPlain(e.ronum);
    DigitsPlain(e.length);
    var body := e.ro.content + "\n" + tail;
    EntryOf(load, f, "ro", e.ronum, e.length, body);
    Grouped("ro" + " " + e.ronum + " " + e.length + "\n", e.ro.content, "\n", tail);
    assert "ro" + " " == "ro ";
    Decimal.ParsePrint(e.ro.num, B32);
    Decimal.ParsePrint(|e.ro.content|, B32);
    ReadBodyOf(e.ro.content, tail);
  }

  lemma DotFormPlain(n: nat)
    ensures Plain(Decimal.DotForm(n)) && ':' !in Decimal.DotForm(n) && Decimal.DotForm(n) != ""
  {
    DigitsPlain(Decimal.Print(n / 0x1000000));
    DigitsPlain(Decimal.Print(n / 0x10000 % 0x100));
    DigitsPlain(Decimal.Print(n / 0x100 % 0x100));
    DigitsPlain(Decimal.Print(n % 0x100));
  }

  lemma PONumberReads(d: string, i: string, n: nat)
    requires d != "" && i != "" && ':' !in d && ':' !in i
    requires Decimal.ParseDotForm(d) == Some(n) && Decimal.ParseUint(i, B32) == Some(n)
    ensures PONumber(d + ":" + i).0 == Some(n)
  {
    Text.SplitPart(':', i);
    Text.SplitFirst(':', d, i);
  }

  lemma POLineReads(f: FrameData, nums: string, len: string, num: nat, content: Bytes, tail: Bytes)
    requires PONumber(nums).0 == Some(num) && Decimal.ParseUint(len, B32) == Some(|content|)
    ensures POLine(f, nums, len, content + "\n" + tail) == Continue(
      f.(pos := f.pos + [POEntry(Object(num, content), Decimal.Print(num), Decimal.DotForm(num), Decimal.Print(|content|))]), tail)
  {
    ReadBodyOf(content, tail);
  }

  lemma PrintPOPieces(e: POEntry, tail: Bytes)
    ensures PrintPO(e) + tail == "po" + " " + (e.dotNum + ":" + e.intNum) + " " + e.length + "\n" + (e.po.content + "\n" + tail)
  {
  }

  lemma POReads(load: Loader, f: FrameData, e: POEntry, tail: Bytes)
    requires GoodPO(e)
    ensures Entry(load, f, PrintPO(e) + tail) == Continue(f.(pos := f.pos + [e]), tail)
  {
    var d, i, len, n := e.dotNum, e.intNum, e.length, e.po.num;
    DotFormPlain(n);
    DigitsPlain(i);
    DigitsPlain(len);
    Decimal.ParsePrint(n, B32);
    Decimal.ParseDotFormPrint(n);
    PONumberReads(d, i, n);
    Decimal.ParsePrint(|e.po.content|, B32);
    POLineReads(f, d + ":" + i, len, n, e.po.content, tail);
    EntryOf(load, f, "po", d + ":" + i, len, e.po.content + "\n" + tail);
    PrintPOPieces(e, tail);
  }

  // ---- whole frames ----

  function AddAll<E>(add: (FrameData, E) -> FrameData, f: FrameData, es: seq<E>): (r: FrameData) {
    if es == [] then f else add(AddAll(add, f, es[..|es| - 1]), es[|es| - 1])
  }

  /** If reading goes past each printed entry by adding it, it goes past all of them by adding them all. */
  lemma {:induction false} AllRead<E(!new)>(
    read: (FrameData, Bytes) -> Outcome, show: E -> Bytes, add: (FrameData, E) -> FrameData, f: FrameData, es: seq<E>, tail: Bytes)
    requires forall g, e, t :: e in es ==> read(g, show(e) + t) == read(add(g, e), t)
    ensures read(f, PrintAll(show, es) + tail) == read(AddAll(add, f, es), tail)
    decreases |es|
  {
    if es == [] {
      assert PrintAll(show, es) + tail == tail;
    } else {
      var init, last := es[..|es| - 1], es[|es| - 1];
      var more := show(last) + tail;
      AllRead(read, show, add, f, init, more);
      assert PrintAll(show, es) + tail == PrintAll(show, init) + more;
    }
  }

  function AddHeaderTo(f: FrameData, h: Header): (r: FrameData) {
    f.(headers := f.headers + [Reread(h)])
  }

  function AddROTo(load: Loader): (r: (FrameData, ROEntry) -> FrameData) {
    (f: FrameData, e: ROEntry) => f.(ros := f.ros + [Reload(load, e)])
  }

  function AddPOTo(f: FrameData, e: POEntry): (r: FrameData) {
    f.(pos := f.pos + [e])
  }

  function RereadAll(hs: seq<Header>): (r: seq<Header>)
    ensures |r| == |hs|
  {
    seq(|hs|, i requires 0 <= i < |hs| => Reread(hs[i]))
  }

  lemma {:induction false} AddedHeaders(f: FrameData, hs: seq<Header>)
    ensures AddAll(AddHeaderTo, f, hs) == f.(headers := f.headers + RereadAll(hs))
    decreases |hs|
  {
    if hs == [] {
      assert f.headers + RereadAll(hs) == f.headers;
    } else {
      var init := hs[..|hs| - 1];
      AddedHeaders(f, init);
      assert f.headers + RereadAll(hs) == f.headers + RereadAll(init) + [Reread(hs[|hs| - 1])];
    }
  }

  function ReloadAll(load: Loader, es: seq<ROEntry>): (r: seq<ROEntry>)
    ensures |r| == |es|
  {
    seq(|es|, i requires 0 <= i < |es| => Reload(load, es[i]))
  }

  lemma {:induction false} AddedROs(load: Loader, f: FrameData, es: seq<ROEntry>)
    ensures AddAll(AddROTo(load), f, es) == f.(ros := f.ros + ReloadAll(load, es))
    decreases |es|
  {
    if es == [] {
      assert f.ros + ReloadAll(load, es) == f.ros;
    } else {
      var init := es[..|es| - 1];
      AddedROs(load, f, init);
      assert f.ros + ReloadAll(load, es) == f.ros + ReloadAll(load, init) + [Reload(load, es[|es| - 1])];
    }
  }

  lemma {:induction false} AddedPOs(f: FrameData, es: seq<POEntry>)
    ensures AddAll(AddPOTo, f, es) == f.(pos := f.pos + es)
    decreases |es|
  {
    if es == [] {
      assert f.pos + es == f.pos;
    } else {
      AddedPOs(f, es[..|es| - 1]);
      assert f.pos + es == f.pos + es[..|es| - 1] + [es[|es| - 1]];
    }
  }

  lemma HeadersRead(load: Loader, f: FrameData, hs: seq<Header>, tail: Bytes)
    requires forall i :: 0 <= i < |hs| ==> GoodHeader(hs[i])
    ensures LoadEntries(load, f, PrintAll(PrintHeader, hs) + tail) == LoadEntries(load, f.(headers := f.headers + RereadAll(hs)), tail)
  {
    var read := (g: FrameData, s: Bytes) => LoadEntries(load, g, s);
    forall g, h, t | h in hs ensures read(g, PrintHeader(h) + t) == read(AddHeaderTo(g, h), t) {
      HeaderReads(load, g, h, t);
    }
    AllRead(read, PrintHeader, AddHeaderTo, f, hs, tail);
    AddedHeaders(f, hs);
  }

  lemma ROsRead(load: Loader, f: FrameData, es: seq<ROEntry>, tail: Bytes)
    requires forall i :: 0 <= i < |es| ==> GoodRO(es[i]) && Loads(load, es[i])
    ensures LoadEntries(load, f, PrintAll(PrintRO, es) + tail) ==
            LoadEntries(load, f.(ros := f.ros + ReloadAll(load, es)), tail)
  {
    var read, add := (g: FrameData, s: Bytes) => LoadEntries(load, g, s), AddROTo(load);
    forall g, e, t | e in es ensures read(g, PrintRO(e) + t) == read(add(g, e), t) {
      ROReads(load, g, e, t);
    }
    AllRead(read, PrintRO, add, f, es, tail);
    AddedROs(load, f, es);
  }

  lemma {:induction false} PrintAllFrom<E>(show: E -> Bytes, es: seq<E>, j: nat)
    requires j < |es|
    ensures PrintAll(show, es) == PrintAll(show, es[..j]) + (show(es[j]) + PrintAll(show, es[j + 1..]))
    decreases |es|
  {
    var init, last := es[..|es| - 1], show(es[|es| - 1]);
    if j == |es| - 1 {
      assert es[j + 1..] == [] && show(es[j]) + "" == show(es[j]);
    } else {
      PrintAllFrom(show, init, j);
      assert init[..j] == es[..j] && es[j + 1..][..|es| - 1 - (j + 1)] == init[j + 1..];
      var a, b, c := PrintAll(show, es[..j]), show(es[j]), PrintAll(show, init[j + 1..]);
      assert a + (b + c) + last == a + (b + (c + last));
    }
  }

  /** The first routing object that does not load ends the reading, with neither a frame nor an error. */
  lemma ROsStop(load: Loader, f: FrameData, es: seq<ROEntry>, j: nat, tail: Bytes)
    requires (forall i :: 0 <= i < |es| ==> GoodRO(es[i])) && j < |es| && !Loads(load, es[j])
    requires forall i :: 0 <= i < j ==> Loads(load, es[i])
    ensures LoadEntries(load, f, PrintAll(PrintRO, es) + tail) == Nothing
  {
    PrintAllFrom(PrintRO, es, j);
    var a, b, c := PrintAll(PrintRO, es[..j]), PrintRO(es[j]), PrintAll(PrintRO, es[j + 1..]);
    assert a + (b + c) + tail == a + (b + (c + tail));
    ROsRead(load, f, es[..j], b + (c + tail));
    ROReads(load, f.(ros := f.ros + ReloadAll(load, es[..j])), es[j], c + tail);
  }

  lemma POsRead(load: Loader, f: FrameData, es: seq<POEntry>, tail: Bytes)
    requires forall i :: 0 <= i < |es| ==> GoodPO(es[i])
    ensures LoadEntries(load, f, PrintAll(PrintPO, es) + tail) == LoadEntries(load, f.(pos := f.pos + es), tail)
  {
    var read := (g: FrameData, s: Bytes) => LoadEntries(load, g, s);
    forall g, e, t | e in es ensures read(g, PrintPO(e) + t) == read(AddPOTo(g, e), t) {
      POReads(load, g, e, t);
    }
    AllRead(read, PrintPO, AddPOTo, f, es, tail);
    AddedPOs(f, es);
  }

  lemma EndReads(load: Loader, f: FrameData, rest: Bytes)
    ensures LoadEntries(load, f, "end\n" + rest) == Loaded(f, rest)
  {
    ReadLineOf("end", rest);
    assert "end" + "\n" == "end\n";
  }

  /** A frame whose parts are as they are added, with a 4-byte command and 32-bit numbers. */
  ghost predicate GoodFrame(f: FrameData) {
    && |f.cmd| == 4 && f.seqno < B32 && f.length < B32
    && (forall i :: 0 <= i < |f.headers| ==> GoodHeader(f.headers[i]))
    && (forall i :: 0 <= i < |f.ros| ==> GoodRO(f.ros[i]))
    && (forall i :: 0 <= i < |f.pos| ==> GoodPO(f.pos[i]))
  }

  ghost predicate AllLoad(load: Loader, es: seq<ROEntry>) {
    forall i :: 0 <= i < |es| ==> Loads(load, es[i])
  }

  lemma EndedBy(a: Bytes, b: Bytes, c: Bytes, end: Bytes, rest: Bytes)
    ensures (a + b + c + end) + rest == a + (b + (c + (end + rest)))
  {
  }

  lemma BodyReads(load: Loader, f: FrameData, g: FrameData, rest: Bytes)
    requires GoodFrame(f) && g.headers == [] && g.ros == [] && g.pos == []
    ensures LoadEntries(load, g, PrintBody(f) + rest) ==
            if AllLoad(load, f.ros)
            then Loaded(g.(headers := RereadAll(f.headers), ros := ReloadAll(load, f.ros), pos := f.pos), rest)
            else Nothing
  {
    var a, b, c, d := PrintAll(PrintHeader, f.headers), PrintAll(PrintRO, f.ros), PrintAll(PrintPO, f.pos), "end\n" + rest;
    EndedBy(a, b, c, "end\n", rest);
    HeadersRead(load, g, f.headers, b + (c + d));
    NoneBefore(RereadAll(f.headers));
    var g1 := g.(headers := RereadAll(f.headers));
    if AllLoad(load, f.ros) {
      ObjectsRead(load, f, g1, rest);
    } else {
      var j := FirstUnloadable(load, f.ros);
      ROsStop(load, g1, f.ros, j, c + d);
    }
  }

  lemma ObjectsRead(load: Loader, f: FrameData, g: FrameData, rest: Bytes)
    requires GoodFrame(f) && AllLoad(load, f.ros) && g.ros == [] && g.pos == []
    ensures LoadEntries(load, g, PrintAll(PrintRO, f.ros) + (PrintAll(PrintPO, f.pos) + ("end\n" + rest))) ==
            Loaded(g.(ros := ReloadAll(load, f.ros), pos := f.pos), rest)
  {
    ROsRead(load, g, f.ros, PrintAll(PrintPO, f.pos) + ("end\n" + rest));
    NoneBefore(ReloadAll(load, f.ros));
    var g2 := g.(ros := ReloadAll(load, f.ros));
    POsRead(load, g2, f.pos, "end\n" + rest);
    NoneBefore(f.pos);
    EndReads(load, g2.(pos := f.pos), rest);
  }

  lemma {:induction false} FirstUnloadable(load: Loader, es: seq<ROEntry>) returns (j: nat)
    requires !AllLoad(load, es)
    ensures j < |es| && !Loads(load, es[j]) && forall i :: 0 <= i < j ==> Loads(load, es[i])
    decreases |es|
  {
    var k :| 0 <= k < |es| && !Loads(load, es[k]);
    j := k;
    if !AllLoad(load, es[..k]) {
      j := FirstUnloadable(load, es[..k]);
    }
  }

  lemma NoneBefore<T>(s: seq<T>)
    ensures [] + s == s
  {
  }

  lemma FirstLineReads(f: FrameData, tail: Bytes)
    requires |f.cmd| == 4 && f.seqno < B32 && f.length < B32
    ensures var s := PrintFirstLine(f) + tail;
      && |s| >= 27 && s[..4] == f.cmd && s[27..] == tail
      && s[5..15] == Decimal.PrintPadded(f.length) && s[16..26] == Decimal.PrintPadded(f.seqno)
  {
    Decimal.PaddedIsTen(f.length);
    Decimal.PaddedIsTen(f.seqno);
  }

  /**
   * A written frame followed by anything is read back: command, sequence number, length, headers by key and content,
   * and all objects as they load; and what followed is left in the stream. If a routing object does not load, there
   * is neither a frame nor an error.
   */
  lemma LoadWritten(load: Loader, f: FrameData, rest: Bytes)
    requires GoodFrame(f)
    ensures LoadFrame(load, PrintFrame(f) + rest) ==
            if AllLoad(load, f.ros) then Loaded(f.(headers := RereadAll(f.headers), ros := ReloadAll(load, f.ros)), rest)
            else Nothing
  {
    var tail := PrintBody(f) + rest;
    assert PrintFrame(f) + rest == PrintFirstLine(f) + tail;
    FirstLineReads(f, tail);
    Decimal.ParsePadded(f.length, B32);
    Decimal.ParsePadded(f.seqno, B32);
    BodyReads(load, f, FrameData(f.cmd, f.seqno, [], [], [], f.length), rest);
  }

  /** With a loader that gives every object of the frame back, the frame itself is read, its headers aside. */
  lemma RoundTrip(load: Loader, f: FrameData, rest: Bytes)
    requires GoodFrame(f) && forall i :: 0 <= i < |f.ros| ==> load(f.ros[i].ro.num, f.ros[i].ro.content) == Some(f.ros[i].ro)
    ensures LoadFrame(load, PrintFrame(f) + rest) == Loaded(f.(headers := RereadAll(f.headers)), rest)
  {
    LoadWritten(load, f, rest);
    assert ReloadAll(load, f.ros) == f.ros;
  }

  /** Neither a frame nor an error exactly when some routing object does not load. */
  lemma NothingIff(load: Loader, f: FrameData, rest: Bytes)
    requires GoodFrame(f)
    ensures LoadFrame(load, PrintFrame(f) + rest) == Nothing <==> exists i :: 0 <= i < |f.ros| && !Loads(load, f.ros[i])
  {
    LoadWritten(load, f, rest);
  }

  // For instance one object, and a loader that does not know its number.
  lemma UnknownNumber(num: nat, content: Bytes)
    requires num < B32 && |content| < B32
    ensures var e := ROEntry(Object(num, content), Decimal.Print(num), Decimal.Print(|content|));
      LoadFrame((_, _) => None, PrintFrame(FrameData("publ", 0, [], [e], [], 0))) == Nothing
  {
    var e := ROEntry(Object(num, content), Decimal.Print(num), Decimal.Print(|content|));
    var f, load: Loader := FrameData("publ", 0, [], [e], [], 0), (_, _) => None;
    assert !Loads(load, f.ros[0]);
    NothingIff(load, f, "");
    assert PrintFrame(f) + "" == PrintFrame(f);
  }

  // ---- a frame that was read, written again ----

  lemma {:induction false} RereadShorter(hs: seq<Header>)
    requires forall i :: 0 <= i < |hs| ==> GoodHeader(hs[i])
    ensures |PrintAll(PrintHeader, RereadAll(hs))| + |hs| <= |PrintAll(PrintHeader, hs)|
    decreases |hs|
  {
    if hs != [] {
      var init := hs[..|hs| - 1];
      RereadShorter(init);
      assert RereadAll(hs)[..|init|] == RereadAll(init);
    }
  }

  /**
   * The length of a header that was read is not kept as text, so writing the frame again gives the same bytes
   * exactly when it has no headers.
   */
  lemma RewriteIff(f: FrameData)
    requires GoodFrame(f)
    ensures PrintFrame(f.(headers := RereadAll(f.headers))) == PrintFrame(f) <==> f.headers == []
  {
    RereadShorter(f.headers);
    if f.headers == [] {
      assert RereadAll(f.headers) == f.headers;
    }
  }
}
