/**
 * Calls of contract functions: the layout of arguments in the Solidity Contract ABI Specification, and the
 * identifiers that say which types a function takes and returns.
 */
module Abi {
  import opened Words
  import opened Options

  const WORD: nat := 32
  const B256 := 0x1_0000000000000000000000000000000000000000000000000000000000000000

  // ---- numbers as bytes, most significant first ----

  function BeValue(s: seq<byte>): (r: nat) {
    if s == [] then 0 else 0x100 * BeValue(s[..|s| - 1]) + s[|s| - 1]
  }

  function Power(n: nat): (r: nat)
    ensures r > 0
  {
    if n == 0 then 1 else 0x100 * Power(n - 1)
  }

  function BeBytes(v: nat, n: nat): (s: seq<byte>)
    ensures |s| == n
  {
    seq(n, i requires 0 <= i < n => v / Power(n - 1 - i) % 0x100)
  }

  lemma DivDiv(v: nat, p: nat)
    requires p > 0
    ensures v / 0x100 / p == v / (0x100 * p)
  {
    var w, q, r := v / 0x100, v / 0x100 / p, v / 0x100 % p;
    assert w == p * q + r;
    var low := 0x100 * r + v % 0x100;
    assert 0x100 * (p * q) == (0x100 * p) * q;
    QuotRem(v, 0x100 * p, q, low);
  }

  lemma BeStep(v: nat, n: nat)
    requires n > 0
    ensures BeBytes(v, n) == BeBytes(v / 0x100, n - 1) + [v % 0x100]
  {
    forall i | 0 <= i < n - 1 ensures BeBytes(v, n)[i] == BeBytes(v / 0x100, n - 1)[i] {
      var p := Power(n - 2 - i);
      assert Power(n - 1 - i) == 0x100 * p;
      DivDiv(v, p);
      assert BeBytes(v / 0x100, n - 1)[i] == v / 0x100 / p % 0x100;
    }
    assert Power(0) == 1 && v / 1 == v;
  }

  lemma {:induction false} BeRoundTrip(v: nat, n: nat)
    requires v < Power(n)
    ensures BeValue(BeBytes(v, n)) == v
    decreases n
  {
    if n > 0 {
      BeStep(v, n);
      BeRoundTrip(v / 0x100, n - 1);
      assert BeBytes(v, n)[..n - 1] == BeBytes(v / 0x100, n - 1);
    }
  }

  lemma {:induction false} PowerAdd(m: nat, n: nat)
    ensures Power(m + n) == Power(m) * Power(n)
  {
    if m > 0 {
      PowerAdd(m - 1, n);
      Regroup(Power(m - 1), Power(n));
    }
  }

  lemma Regroup(x: int, y: int)
    ensures 0x100 * (x * y) == (0x100 * x) * y
  {
  }

  lemma PowerOfWord()
    ensures Power(WORD) == B256
  {
    PowerTwice(4, 0x1_0000_0000);
    PowerTwice(8, 0x1_0000_0000_0000_0000);
    PowerTwice(16, 0x1_0000_0000_0000_0000_0000_0000_0000_0000);
  }

  lemma PowerTwice(n: nat, v: nat)
    requires Power(n) == v
    ensures Power(2 * n) == v * v
  {
    PowerAdd(n, n);
  }

  type Bytes32 = s: seq<byte> | |s| == WORD witness seq(WORD, _ => 0)

  /** A number in one word. */
  function Word(v: nat): (s: Bytes32) {
    BeBytes(v, WORD)
  }

  lemma WordReads(v: nat)
    requires v < B256
    ensures BeValue(Word(v)) == v
  {
    PowerOfWord();
    BeRoundTrip(v, WORD);
  }

  function Zeros(n: nat): (s: seq<byte>)
    ensures |s| == n
  {
    seq(n, _ => 0)
  }

  // ---- pieces one after the other ----

  type Bytes = seq<byte>

  /** The tails of a list of things. */
  function Tails<A>(tail: A -> Bytes, args: seq<A>): (s: Bytes) {
    if args == [] then [] else Tails(tail, args[..|args| - 1]) + tail(args[|args| - 1])
  }

  /** Where the tail of thing i begins, after one word for each. */
  function Offset<A>(tail: A -> Bytes, args: seq<A>, i: nat): (r: nat)
    requires i <= |args|
  {
    WORD * |args| + |Tails(tail, args[..i])|
  }

  function Heads<A>(head: (A, nat) -> Bytes32, tail: A -> Bytes, args: seq<A>, n: nat): (s: Bytes)
    requires n <= |args|
    ensures |s| == WORD * n
  {
    if n == 0 then [] else Heads(head, tail, args, n - 1) + head(args[n - 1], Offset(tail, args, n - 1))
  }

  /** All the heads, then all the tails. */
  function Layout<A>(head: (A, nat) -> Bytes32, tail: A -> Bytes, args: seq<A>): (s: Bytes) {
    Heads(head, tail, args, |args|) + Tails(tail, args)
  }

  lemma Assoc(a: Bytes, b: Bytes, c: Bytes)
    ensures a + b + c == a + (b + c)
  {
  }

  lemma SliceOfSecond(a: Bytes, b: Bytes, i: nat, j: nat)
    requires i <= j <= |b|
    ensures (a + b)[|a| + i..|a| + j] == b[i..j]
  {
  }

  lemma SliceOfFirst(a: Bytes, b: Bytes, i: nat, j: nat)
    requires i <= j <= |a|
    ensures (a + b)[i..j] == a[i..j]
  {
  }

  lemma SliceOfSlice(s: Bytes, i: nat, j: nat, k: nat, l: nat)
    requires i <= j <= |s| && k <= l <= j - i
    ensures s[i..j][k..l] == s[i + k..i + l]
  {
    forall x | 0 <= x < l - k ensures s[i..j][k..l][x] == s[i + k..i + l][x] {
    }
  }

  lemma {:induction false} HeadAt<A>(head: (A, nat) -> Bytes32, tail: A -> Bytes, args: seq<A>, n: nat, i: nat)
    requires i < n <= |args|
    ensures Heads(head, tail, args, n)[WORD * i..WORD * (i + 1)] == head(args[i], Offset(tail, args, i))
    decreases n
  {
    var init, last := Heads(head, tail, args, n - 1), head(args[n - 1], Offset(tail, args, n - 1));
    if i < n - 1 {
      HeadAt(head, tail, args, n - 1, i);
      SliceOfFirst(init, last, WORD * i, WORD * (i + 1));
    } else {
      SliceOfSecond(init, last, 0, WORD);
    }
  }

  lemma {:induction false} TailAt<A>(tail: A -> Bytes, args: seq<A>, i: nat)
    requires i < |args|
    ensures var start := |Tails(tail, args[..i])|;
      start + |tail(args[i])| <= |Tails(tail, args)| && Tails(tail, args)[start..start + |tail(args[i])|] == tail(args[i])
    decreases |args|
  {
    var init, last := args[..|args| - 1], args[|args| - 1];
    var start := |Tails(tail, args[..i])|;
    if i < |init| {
      TailAt(tail, init, i);
      assert init[..i] == args[..i];
      SliceOfFirst(Tails(tail, init), tail(last), start, start + |tail(args[i])|);
    } else {
      assert args[..i] == init;
      SliceOfSecond(Tails(tail, init), tail(last), 0, |tail(last)|);
    }
  }

  /** Every head is in its place. */
  lemma HeadInPlace<A>(head: (A, nat) -> Bytes32, tail: A -> Bytes, args: seq<A>, i: nat)
    requires i < |args|
    ensures var s := Layout(head, tail, args);
      |s| >= WORD * |args| && s[WORD * i..WORD * (i + 1)] == head(args[i], Offset(tail, args, i))
  {
    HeadAt(head, tail, args, |args|, i);
    SliceOfFirst(Heads(head, tail, args, |args|), Tails(tail, args), WORD * i, WORD * (i + 1));
  }

  /** Every tail begins at its offset. */
  lemma TailInPlace<A>(head: (A, nat) -> Bytes32, tail: A -> Bytes, args: seq<A>, i: nat)
    requires i < |args|
    ensures var s, o, t := Layout(head, tail, args), Offset(tail, args, i), tail(args[i]);
      o + |t| <= |s| && s[o..o + |t|] == t
  {
    TailAt(tail, args, i);
    var start := |Tails(tail, args[..i])|;
    SliceOfSecond(Heads(head, tail, args, |args|), Tails(tail, args), start, start + |tail(args[i])|);
  }

  lemma {:induction false} TailsAligned<A>(tail: A -> Bytes, args: seq<A>)
    requires forall i :: 0 <= i < |args| ==> |tail(args[i])| % WORD == 0
    ensures |Tails(tail, args)| % WORD == 0
  {
    if args != [] {
      TailsAligned(tail, args[..|args| - 1]);
      assert |tail(args[|args| - 1])| % WORD == 0;
    }
  }

  // ---- arguments ----

  datatype Arg = UInt(value: nat) | Static(bytes: Bytes) | Dynamic(bytes: Bytes)
  datatype Token = TUInt | TBytes | TDBytes

  function TokenOf(a: Arg): (t: Token) {
    match a
    case UInt(_) => TUInt
    case Static(_) => TBytes
    case Dynamic(_) => TDBytes
  }

  /** Bytes made one word: cut, or zeros to the right. */
  function OneWord(b: Bytes): (s: Bytes32) {
    if |b| >= WORD then b[..WORD] else b + Zeros(WORD - |b|)
  }

  /** Bytes with zeros to the right, up to a whole number of words. */
  function Padded(b: Bytes): (s: Bytes)
    ensures |s| % WORD == 0 && |b| <= |s| && s[..|b|] == b
  {
    if |b| % WORD == 0 then b else b + Zeros(WORD - |b| % WORD)
  }

  /** What goes after the heads. */
  function TailOf(a: Arg): (s: Bytes) {
    if a.Dynamic? then Word(|a.bytes|) + Padded(a.bytes) else []
  }

  /** The head of an argument: its value, or where its tail begins. */
  function HeadOf(a: Arg, offset: nat): (s: Bytes32) {
    match a
    case UInt(v) => Word(v % B256)
    case Static(b) => OneWord(b)
    case Dynamic(_) => Word(offset)
  }

  /** The arguments as they are laid out after the selector. */
  function Encoded(args: seq<Arg>): (s: Bytes) {
    Layout(HeadOf, TailOf, args)
  }

  // `Written` says nothing: it only lets a proof choose where heads and tails are looked into.
  ghost predicate Written(a: Arg, offset: nat) { true }

  ghost predicate Writes(head: (Arg, nat) -> Bytes32, tail: Arg -> Bytes) {
    forall a, o {:trigger Written(a, o)} :: Written(a, o) ==> head(a, o) == HeadOf(a, o) && tail(a) == TailOf(a)
  }

  /** One argument: its head goes to one buffer and its tail to another. */
  method EncodeOne(token: Token, a: Arg, endloc: nat, data: Bytes, extra: Bytes,
                   ghost head: (Arg, nat) -> Bytes32, ghost tail: Arg -> Bytes) returns (d: Bytes, x: Bytes)
    requires token == TokenOf(a) && Writes(head, tail)
    ensures d == data + head(a, endloc + |extra|) && x == extra + tail(a)
  {
    assert Written(a, endloc + |extra|);
    d, x := data, extra;
    match token
    case TUInt =>
      d := d + Word(a.value % B256);
    case TDBytes =>
      var offset := Word(endloc + |x|);
      d := d + offset;
      x := x + Word(|a.bytes|);
      x := x + Padded(a.bytes);
      Assoc(extra, Word(|a.bytes|), Padded(a.bytes));
    case TBytes =>
      d := d + OneWord(a.bytes);
  }

  lemma LayoutStep<A>(head: (A, nat) -> Bytes32, tail: A -> Bytes, start: Bytes, args: seq<A>, i: nat)
    requires i < |args|
    ensures start + Heads(head, tail, args, i) + head(args[i], Offset(tail, args, i)) == start + Heads(head, tail, args, i + 1)
    ensures Tails(tail, args[..i]) + tail(args[i]) == Tails(tail, args[..i + 1])
  {
    assert args[..i + 1][..i] == args[..i];
    Assoc(start, Heads(head, tail, args, i), head(args[i], Offset(tail, args, i)));
  }

  /** The loop over the arguments. */
  method EncodeBuffers(selector: Bytes, tokens: seq<Token>, args: seq<Arg>,
                       ghost head: (Arg, nat) -> Bytes32, ghost tail: Arg -> Bytes) returns (data: Bytes, extra: Bytes)
    requires |tokens| == |args| && (forall i :: 0 <= i < |args| ==> tokens[i] == TokenOf(args[i])) && Writes(head, tail)
    ensures data == selector + Heads(head, tail, args, |args|) && extra == Tails(tail, args)
  {
    data, extra := selector, [];
    var endloc := WORD * |tokens|;
    for i := 0 to |tokens|
      invariant data == selector + Heads(head, tail, args, i) && extra == Tails(tail, args[..i])
    {
      LayoutStep(head, tail, selector, args, i);
      data, extra := EncodeOne(tokens[i], args[i], endloc, data, extra, head, tail);
    }
    assert args[..|args|] == args;
  }

  method EncodeABICall(selector: Bytes, tokens: seq<Token>, args: seq<Arg>) returns (r: Option<Bytes>)
    requires |selector| == 4
    requires |tokens| == |args| ==> forall i :: 0 <= i < |args| ==> tokens[i] == TokenOf(args[i])
    ensures r == if |tokens| != |args| then None else Some(selector + Encoded(args))
  {
    if |tokens| != |args| {
      return None;
    }
    var data, extra := EncodeBuffers(selector, tokens, args, HeadOf, TailOf);
    Assoc(selector, Heads(HeadOf, TailOf, args, |args|), Tails(TailOf, args));
    return Some(data + extra);
  }

  /** The tail of a dynamic argument, as two slices. */
  lemma TailParts(b: Bytes)
    ensures var t := TailOf(Dynamic(b));
      |t| >= WORD + |b| && t[0..WORD] == Word(|b|) && t[WORD..WORD + |b|] == b
  {
    SliceOfFirst(Word(|b|), Padded(b), 0, WORD);
    SliceOfSecond(Word(|b|), Padded(b), 0, |b|);
  }

  /** A piece that lies in s at o, and the word and bytes it is made of. */
  lemma PieceInPlace(s: Bytes, o: nat, t: Bytes, w: Bytes, b: Bytes)
    requires o + |t| <= |s| && s[o..o + |t|] == t && |t| >= WORD + |b| && t[0..WORD] == w && t[WORD..WORD + |b|] == b
    ensures s[o..o + WORD] == w && s[o + WORD..o + WORD + |b|] == b
  {
    SliceOfSlice(s, o, o + |t|, 0, WORD);
    SliceOfSlice(s, o, o + |t|, WORD, WORD + |b|);
  }

  lemma TailIsAligned(a: Arg)
    ensures |TailOf(a)| % WORD == 0
  {
  }

  lemma OffsetAligned(args: seq<Arg>, i: nat)
    requires i <= |args|
    ensures Offset(TailOf, args, i) % WORD == 0
  {
    var before := args[..i];
    forall j | 0 <= j < |before| ensures |TailOf(before[j])| % WORD == 0 {
      TailIsAligned(before[j]);
    }
    TailsAligned(TailOf, before);
    WholeWords(|args|, |Tails(TailOf, before)|);
  }

  lemma WholeWords(n: nat, m: nat)
    requires m % WORD == 0
    ensures (WORD * n + m) % WORD == 0
  {
  }

  /** A length word with its bytes behind it, at o in s. */
  ghost predicate HoldsAt(s: Bytes, o: nat, b: Bytes) {
    o + WORD + |b| <= |s| && s[o..o + WORD] == Word(|b|) && s[o + WORD..o + WORD + |b|] == b
  }

  lemma TailHolds(s: Bytes, o: nat, b: Bytes)
    requires var t := TailOf(Dynamic(b)); o + |t| <= |s| && s[o..o + |t|] == t
    ensures HoldsAt(s, o, b)
  {
    TailParts(b);
    PieceInPlace(s, o, TailOf(Dynamic(b)), Word(|b|), b);
  }

  /** The offset of a dynamic argument is aligned and points at its own length word, which its bytes follow. */
  lemma DynamicInPlace(args: seq<Arg>, i: nat)
    requires i < |args| && args[i].Dynamic?
    ensures Offset(TailOf, args, i) % WORD == 0 && HoldsAt(Encoded(args), Offset(TailOf, args, i), args[i].bytes)
  {
    TailInPlace(HeadOf, TailOf, args, i);
    TailHolds(Encoded(args), Offset(TailOf, args, i), args[i].bytes);
    OffsetAligned(args, i);
  }

  // ---- reading back ----

  /** The low 64 bits as a signed number. */
  function Int64(v: nat): (r: int) {
    var w := v % 0x1_0000_0000_0000_0000;
    if w < 0x8000_0000_0000_0000 then w else w - 0x1_0000_0000_0000_0000
  }

  datatype Decoded = Values(values: seq<Arg>) | TooShort | Panics

  /** One returned value, or nothing when a slice is out of range. */
  function DecodeOne(t: Token, data: seq<byte>, i: nat): (r: Option<Arg>)
    requires WORD * (i + 1) <= |data|
  {
    var word := data[WORD * i..WORD * (i + 1)];
    match t
    case TUInt => Some(UInt(BeValue(word) % B256))
    case TBytes => Some(Static(word))
    case TDBytes =>
      var o := Int64(BeValue(word));
      if o < 0 || o + WORD > |data| then None
      else
        var n := Int64(BeValue(data[o..o + WORD]));
        if n < 0 || o + WORD + n > |data| then None else Some(Dynamic(data[o + WORD..o + WORD + n]))
  }

  function Prepend(front: seq<Arg>, rest: Option<seq<Arg>>): (r: Option<seq<Arg>>) {
    if rest.None? then None else Some(front + rest.value)
  }

  function DecodeFrom(rets: seq<Token>, data: seq<byte>, i: nat): (r: Option<seq<Arg>>)
    requires i <= |rets| && WORD * |rets| <= |data|
    decreases |rets| - i
  {
    if i == |rets| then Some([])
    else
      var v := DecodeOne(rets[i], data, i);
      if v.None? then None else Prepend([v.value], DecodeFrom(rets, data, i + 1))
  }

  lemma PrependTwice(a: seq<Arg>, b: seq<Arg>, rest: Option<seq<Arg>>)
    ensures Prepend(a, Prepend(b, rest)) == Prepend(a + b, rest) && Prepend([], rest) == rest
  {
    if rest.Some? {
      assert a + (b + rest.value) == a + b + rest.value && [] + rest.value == rest.value;
    }
  }

  function DecodeABI(rets: seq<Token>, data: seq<byte>): (r: Decoded) {
    if |data| < WORD * |rets| then TooShort
    else
      var r := DecodeFrom(rets, data, 0);
      if r.None? then Panics else Values(r.value)
  }

  method DecodeABIReturn(rets: seq<Token>, data: seq<byte>) returns (r: Decoded)
    ensures r == DecodeABI(rets, data)
  {
    if |data| < WORD * |rets| {
      return TooShort;
    }
    var values: seq<Arg> := [];
    PrependTwice([], [], DecodeFrom(rets, data, 0));
    for i := 0 to |rets|
      invariant DecodeFrom(rets, data, 0) == Prepend(values, DecodeFrom(rets, data, i))
    {
      var v := DecodeOne(rets[i], data, i);
      if v.None? {
        return Panics;
      }
      PrependTwice(values, [v.value], DecodeFrom(rets, data, i + 1));
      values := values + [v.value];
    }
    return Values(values);
  }

  /** What comes back: numbers modulo 2^256, static bytes cut or padded to a word, dynamic bytes as they are. */
  function ReadBack(a: Arg): (r: Arg) {
    match a
    case UInt(v) => UInt(v % B256)
    case Static(b) => Static(OneWord(b))
    case Dynamic(_) => a
  }

  lemma SmallNumber(v: nat)
    requires v < 0x8000_0000_0000_0000
    ensures Int64(BeValue(Word(v))) == v
  {
    WordReads(v);
  }

  lemma DecodesDynamic(data: Bytes, i: nat, o: nat, b: Bytes)
    requires WORD * (i + 1) <= |data| < 0x8000_0000_0000_0000 && data[WORD * i..WORD * (i + 1)] == Word(o) && HoldsAt(data, o, b)
    ensures DecodeOne(TDBytes, data, i) == Some(Dynamic(b))
  {
    SmallNumber(o);
    SmallNumber(|b|);
  }

  lemma DecodesNumber(data: Bytes, i: nat, v: nat)
    requires WORD * (i + 1) <= |data| && v < B256 && data[WORD * i..WORD * (i + 1)] == Word(v)
    ensures DecodeOne(TUInt, data, i) == Some(UInt(v))
  {
    WordReads(v);
  }

  lemma DecodesOne(args: seq<Arg>, i: nat)
    requires i < |args| && |Encoded(args)| < 0x8000_0000_0000_0000
    ensures WORD * (i + 1) <= |Encoded(args)| && DecodeOne(TokenOf(args[i]), Encoded(args), i) == Some(ReadBack(args[i]))
  {
    HeadInPlace(HeadOf, TailOf, args, i);
    var data := Encoded(args);
    match args[i]
    case UInt(v) =>
      DecodesNumber(data, i, v % B256);
    case Static(b) =>
    case Dynamic(b) =>
      DynamicInPlace(args, i);
      DecodesDynamic(data, i, Offset(TailOf, args, i), b);
  }

  function Tokens(args: seq<Arg>): (r: seq<Token>)
    ensures |r| == |args|
  {
    seq(|args|, i requires 0 <= i < |args| => TokenOf(args[i]))
  }

  function ReadBackAll(args: seq<Arg>): (r: seq<Arg>)
    ensures |r| == |args|
  {
    seq(|args|, i requires 0 <= i < |args| => ReadBack(args[i]))
  }

  lemma {:induction false} DecodesFrom(rets: seq<Token>, data: Bytes, values: seq<Arg>, i: nat)
    requires i <= |rets| == |values| && WORD * |rets| <= |data|
    requires forall j :: 0 <= j < |rets| ==> DecodeOne(rets[j], data, j) == Some(values[j])
    ensures DecodeFrom(rets, data, i) == Some(values[i..])
    decreases |rets| - i
  {
    if i < |rets| {
      DecodesFrom(rets, data, values, i + 1);
      assert values[i..] == [values[i]] + values[i + 1..];
    } else {
      assert values[i..] == [];
    }
  }

  /** Decoding what was encoded, with the same types, gives every value back. */
  lemma AbiRoundTrip(args: seq<Arg>)
    requires |Encoded(args)| < 0x8000_0000_0000_0000
    ensures DecodeABI(Tokens(args), Encoded(args)) == Values(ReadBackAll(args))
  {
    var rets, data, values := Tokens(args), Encoded(args), ReadBackAll(args);
    forall j | 0 <= j < |rets| ensures DecodeOne(rets[j], data, j) == Some(values[j]) {
      DecodesOne(args, j);
    }
    DecodesFrom(rets, data, values, 0);
    assert values[0..] == values;
  }

  // ---- identifiers of functions ----

  /** The sixteen nibbles that say what types a function takes and returns. */
  function Nibble(ufi: Bytes32, i: nat): (r: nat)
    requires i < 16
    ensures r < 16
  {
    if i % 2 == 0 then ufi[24 + i / 2] / 16 else ufi[24 + i / 2] % 16
  }

  /** Supported types from position i up to k, where a zero or the end follows. */
  predicate IsRun(ufi: Bytes32, i: nat, k: nat) {
    i <= k <= 16 && (forall j :: i <= j < k ==> 1 <= Nibble(ufi, j) <= 5) && (k < 16 ==> Nibble(ufi, k) == 0)
  }

  /** Supported types from position i up to k, where an unsupported one follows. */
  predicate IsBroken(ufi: Bytes32, i: nat, k: nat) {
    i <= k < 16 && (forall j :: i <= j < k ==> 1 <= Nibble(ufi, j) <= 5) && Nibble(ufi, k) > 5
  }

  predicate Lists(ufi: Bytes32, i: nat, tokens: seq<nat>) {
    i + |tokens| <= 16 && forall j :: 0 <= j < |tokens| ==> tokens[j] == Nibble(ufi, i + j)
  }

  /** One loop over the nibbles. */
  method ScanTokens(ufi: Bytes32, start: nat) returns (tokens: seq<nat>, i: nat, ok: bool)
    requires start <= 16
    ensures Lists(ufi, start, tokens) && i == start + |tokens|
    ensures if ok then IsRun(ufi, start, i) else IsBroken(ufi, start, i)
  {
    tokens, i := [], start;
    while i < 16
      invariant i <= 16 && i == start + |tokens| && Lists(ufi, start, tokens)
      invariant forall j :: start <= j < i ==> 1 <= Nibble(ufi, j) <= 5
    {
      var token := Nibble(ufi, i);
      if token == 0 {
        break;
      }
      if token > 5 {
        return tokens, i, false;
      }
      tokens := tokens + [token];
      i := i + 1;
    }
    return tokens, i, true;
  }

  /** Arguments up to the first zero nibble, then return values up to the next; an unsupported type in either fails. */
  method DecodeUFI(ufi: Bytes32) returns (contract: Bytes, selector: Bytes, args: seq<nat>, rets: seq<nat>, ok: bool)
    ensures contract == ufi[..20] && selector == ufi[20..24] && Lists(ufi, 0, args)
    ensures ok ==> IsRun(ufi, 0, |args|)
    ensures ok && |args| < 16 ==> Lists(ufi, |args| + 1, rets) && IsRun(ufi, |args| + 1, |args| + 1 + |rets|)
    ensures ok && |args| == 16 ==> rets == []
    ensures !ok ==> IsBroken(ufi, 0, |args|) || (IsRun(ufi, 0, |args|) && IsBroken(ufi, |args| + 1, |args| + 1 + |rets|))
  {
    contract, selector, rets := ufi[..20], ufi[20..24], [];
    var i;
    args, i, ok := ScanTokens(ufi, 0);
    if !ok || i + 1 > 16 {
      return;
    }
    rets, i, ok := ScanTokens(ufi, i + 1);
  }
}
