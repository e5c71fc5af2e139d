/**
 * Out-of-band frames: a command with headers, routing objects and payload objects, as a stream of bytes. Bytes are
 * characters here, as Go's strings are bytes.
 */
module Frames {
  import Decimal

  type Bytes = string

  /** An object with its number; what a number means is the business of the loader. */
  datatype Object = Object(num: nat, content: Bytes)

  /** The length is kept as text when a header is added, and as a number when it is read. */
  datatype Header = Header(key: string, content: Bytes, length: string, ilength: nat)
  datatype ROEntry = ROEntry(ro: Object, ronum: string, length: string)
  datatype POEntry = POEntry(po: Object, intNum: string, dotNum: string, length: string)

  datatype FrameData = FrameData(
    cmd: string, seqno: nat, headers: seq<Header>, ros: seq<ROEntry>, pos: seq<POEntry>, length: nat)

  // ---- the printed form ----

  function PrintHeader(h: Header): (s: Bytes) {
    "kv " + h.key + " " + h.length + "\n" + h.content + "\n"
  }

  function PrintRO(e: ROEntry): (s: Bytes) {
    "ro " + e.ronum + " " + e.length + "\n" + e.ro.content + "\n"
  }

  function PrintPO(e: POEntry): (s: Bytes) {
    "po " + e.dotNum + ":" + e.intNum + " " + e.length + "\n" + e.po.content + "\n"
  }

  /** Entries of one kind, one after the other. */
  function PrintAll<E>(show: E -> Bytes, es: seq<E>): (s: Bytes) {
    if es == [] then "" else PrintAll(show, es[..|es| - 1]) + show(es[|es| - 1])
  }

  /** Everything after the first line. */
  function PrintBody(f: FrameData): (s: Bytes) {
    PrintAll(PrintHeader, f.headers) + PrintAll(PrintRO, f.ros) + PrintAll(PrintPO, f.pos) + "end\n"
  }

  function PadLeft(s: string): (r: string) {
    if |s| >= 4 then s else seq(4 - |s|, _ => ' ') + s
  }

  function PrintFirstLine(f: FrameData): (s: Bytes) {
    PadLeft(f.cmd) + " " + Decimal.PrintPadded(f.length) + " " + Decimal.PrintPadded(f.seqno) + "\n"
  }

  function PrintFrame(f: FrameData): (s: Bytes) {
    PrintFirstLine(f) + PrintBody(f)
  }

  // ---- building and writing ----

  method WriteAll<E>(show: E -> Bytes, es: seq<E>, start: Bytes) returns (s: Bytes)
    ensures s == start + PrintAll(show, es)
  {
    s := start;
    for i := 0 to |es|
      invariant s == start + PrintAll(show, es[..i])
    {
      assert es[..i + 1][..i] == es[..i];
      s := s + show(es[i]);
    }
    assert es[..|es|] == es;
  }

  class Frame {
    var cmd: string
    var seqno: nat
    var headers: seq<Header>
    var ros: seq<ROEntry>
    var pos: seq<POEntry>
    var length: nat

    ghost function View(): (f: FrameData)
      reads this
    {
      FrameData(cmd, seqno, headers, ros, pos, length)
    }

    /** The running count is the number of bytes after the first line. */
    ghost predicate Counted()
      reads this
    {
      length == |PrintBody(View())|
    }

    constructor (command: string, sequence: nat)
      ensures Counted() && View() == FrameData(command, sequence, [], [], [], 4)
    {
      cmd, seqno, headers, ros, pos, length := command, sequence, [], [], [], 4;
    }

    method AddHeader(k: string, v: Bytes)
      requires Counted()
      modifies this`headers, this`length
      ensures Counted() && headers == old(headers) + [Header(k, v, Decimal.Print(|v|), 0)]
    {
      var h := Header(k, v, Decimal.Print(|v|), 0);
      assert (headers + [h])[..|headers|] == headers;
      headers := headers + [h];
      length := length + |k| + |h.length| + 6 + |v|;
    }

    method AddRoutingObject(ro: Object)
      requires Counted()
      modifies this`ros, this`length
      ensures Counted() && ros == old(ros) + [ROEntry(ro, Decimal.Print(ro.num), Decimal.Print(|ro.content|))]
    {
      var re := ROEntry(ro, Decimal.Print(ro.num), Decimal.Print(|ro.content|));
      assert (ros + [re])[..|ros|] == ros;
      ros := ros + [re];
      length := length + 3 + |re.ronum| + 1 + |re.length| + 1 + |ro.content| + 1;
    }

    method AddPayloadObject(po: Object)
      requires Counted()
      modifies this`pos, this`length
      ensures Counted()
      ensures pos == old(pos) + [POEntry(po, Decimal.Print(po.num), Decimal.DotForm(po.num), Decimal.Print(|po.content|))]
    {
      var pe := POEntry(po, Decimal.Print(po.num), Decimal.DotForm(po.num), Decimal.Print(|po.content|));
      assert (pos + [pe])[..|pos|] == pos;
      pos := pos + [pe];
      length := length + 3 + |pe.intNum| + 1 + |pe.dotNum| + 1 + |pe.length| + 1 + |po.content| + 1;
    }

    method WriteToStream() returns (s: Bytes)
      ensures s == PrintFrame(View())
    {
      ghost var f := View();
      s := PadLeft(cmd) + " " + Decimal.PrintPadded(length) + " " + Decimal.PrintPadded(seqno) + "\n";
      assert s == PrintFirstLine(f);
      s := WriteAll(PrintHeader, headers, s);
      s := WriteAll(PrintRO, ros, s);
      s := WriteAll(PrintPO, pos, s);
      s := s + "end\n";
      Pieces(PrintFirstLine(f), PrintAll(PrintHeader, headers), PrintAll(PrintRO, ros), PrintAll(PrintPO, pos), "end\n");
    }
  }

  lemma Pieces(a: Bytes, b: Bytes, c: Bytes, d: Bytes, e: Bytes)
    ensures a + b + c + d + e == a + (b + c + d + e)
  {
  }

  /** The first line is 27 bytes for every 4-byte command and 32-bit numbers. */
  lemma FirstLineLength(f: FrameData)
    requires |f.cmd| == 4 && f.length < 0x1_0000_0000 && f.seqno < 0x1_0000_0000
    ensures |PrintFirstLine(f)| == 27
  {
    Decimal.PaddedIsTen(f.length);
    Decimal.PaddedIsTen(f.seqno);
  }
}
