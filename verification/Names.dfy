/** Resource names as text: cells separated by slashes, and which names are well formed. */
module Names {
  import opened Options
  import opened Patterns
  import opened Restriction
  import Text

  function Split(s: string): (r: seq<string>)
    ensures |r| > 0
  {
    Text.Split('/', s)
  }

  // ---- cells ----

  function CellOf(s: string): (c: Cell) {
    if s == "*" then Star else if s == "+" then Plus else Name(s)
  }

  function TextOf(c: Cell): (s: string) {
    match c
    case Star => "*"
    case Plus => "+"
    case Name(s) => s
  }

  function CellsOf(s: seq<string>): (r: seq<Cell>)
    ensures |r| == |s|
  {
    seq(|s|, i requires 0 <= i < |s| => CellOf(s[i]))
  }

  function TextsOf(c: seq<Cell>): (r: seq<string>)
    ensures |r| == |c|
  {
    seq(|c|, i requires 0 <= i < |c| => TextOf(c[i]))
  }

  function Parse(s: string): (r: seq<Cell>) {
    CellsOf(Split(s))
  }

  function Print(c: seq<Cell>): (r: string) {
    Text.Join('/', TextsOf(c))
  }

  /** A cell that text can hold: no slash in it, and no wildcard in disguise. */
  predicate Written(c: Cell) {
    CellOf(TextOf(c)) == c && '/' !in TextOf(c)
  }

  predicate AllWritten(c: seq<Cell>) {
    forall i :: 0 <= i < |c| ==> Written(c[i])
  }

  lemma WrittenCell(s: string)
    requires '/' !in s
    ensures Written(CellOf(s)) && TextOf(CellOf(s)) == s
  {
  }

  lemma ParseWritten(s: string)
    ensures AllWritten(Parse(s)) && Parse(s) != [] && Print(Parse(s)) == s
  {
    var w := Split(s);
    Text.SplitLeavesNone('/', s);
    forall i | 0 <= i < |w| ensures Written(CellOf(w[i])) && TextOf(CellOf(w[i])) == w[i] {
      WrittenCell(w[i]);
    }
    assert TextsOf(CellsOf(w)) == w;
    Text.JoinSplit('/', s);
  }

  lemma PrintParse(c: seq<Cell>)
    requires AllWritten(c) && c != []
    ensures Parse(Print(c)) == c
  {
    Text.SplitJoin('/', TextsOf(c));
    assert CellsOf(TextsOf(c)) == c;
  }

  predicate DrawnFrom(r: seq<Cell>, x: seq<Cell>, y: seq<Cell>) {
    forall i :: 0 <= i < |r| ==> r[i] == Star || r[i] in x || r[i] in y
  }

  lemma FrontDrawn(x: seq<Cell>, y: seq<Cell>)
    ensures DrawnFrom(Front(x, y), x, y)
  {
  }

  lemma BackDrawn(x: seq<Cell>, y: seq<Cell>)
    ensures DrawnFrom(Back(x, y), x, y)
  {
    var r := Back(x, y);
    forall i | 0 <= i < |r| ensures r[i] in x || r[i] in y {
      var j, k := i - |r| + |x|, i - |r| + |y|;
      if j < 0 {
        assert r[i] == y[k];
      } else if k < 0 {
        assert r[i] == x[j];
      } else {
        assert r[i] == MeetCell(x[j], y[k]);
      }
    }
  }

  lemma InlayDrawn(c: seq<Cell>, pre: seq<Cell>, suf: seq<Cell>)
    requires |pre| + |suf| <= |c|
    ensures DrawnFrom(Inlay(c, pre, suf), c, pre + [Star] + suf)
  {
    var r := Inlay(c, pre, suf);
    forall i | 0 <= i < |r| ensures r[i] in c || r[i] in pre + [Star] + suf {
      if i < |pre| {
        assert pre[i] in pre;
      } else if |c| - |suf| <= i {
        assert suf[i - |c| + |suf|] in suf;
      }
    }
  }

  lemma DrawnApart(r: seq<Cell>, x: seq<Cell>, y: seq<Cell>, f: seq<Cell>, b: seq<Cell>)
    requires DrawnFrom(r, x, y) && (forall c :: c in x ==> c in f) && (forall c :: c in y ==> c in b)
    ensures DrawnFrom(r, f, b)
  {
  }

  /** Restriction invents no cells. */
  lemma RestrictDrawn(f: seq<Cell>, b: seq<Cell>)
    requires Restrict(f, b).Some?
    ensures DrawnFrom(Restrict(f, b).value, f, b)
  {
    match (ShapeOf(f), ShapeOf(b))
    case (Flat(c), Flat(d)) => FrontDrawn(c, d);
    case (Flat(c), Starred(pre, suf)) => InlayDrawn(c, pre, suf);
    case (Starred(pre, suf), Flat(c)) => InlayDrawn(c, pre, suf);
    case (Starred(p, s), Starred(q, u)) =>
      FrontDrawn(p, q);
      DrawnApart(Front(p, q), p, q, f, b);
      BackDrawn(s, u);
      DrawnApart(Back(s, u), s, u, f, b);
    case (_, _) =>
  }

  lemma DrawnWritten(r: seq<Cell>, f: seq<Cell>, b: seq<Cell>)
    requires DrawnFrom(r, f, b) && AllWritten(f) && AllWritten(b)
    ensures AllWritten(r)
  {
    WrittenCell("*");
    forall i | 0 <= i < |r| ensures Written(r[i]) {
      if r[i] in f {
        var j :| 0 <= j < |f| && f[j] == r[i];
        assert Written(f[j]);
      } else if r[i] in b {
        var j :| 0 <= j < |b| && b[j] == r[i];
        assert Written(b[j]);
      }
    }
  }

  /** Restriction as callers see it, on text. */
  function RestrictText(from: string, perm: string): (r: Option<string>) {
    var m := Restrict(Parse(from), Parse(perm));
    if m.Some? then Some(Print(m.value)) else None
  }

  method RestrictByText(from: string, perm: string) returns (r: Option<string>)
    ensures r == RestrictText(from, perm)
  {
    var m := RestrictBy(Parse(from), Parse(perm));
    r := if m.Some? then Some(Print(m.value)) else None;
  }

  /** Nothing is lost in the text: the printed result reads back as the restriction of the cells. */
  lemma RestrictTextReads(from: string, perm: string)
    ensures RestrictText(from, perm).Some? ==> Some(Parse(RestrictText(from, perm).value)) == Restrict(Parse(from), Parse(perm))
    ensures RestrictText(from, perm) == Some(from) <==> Restrict(Parse(from), Parse(perm)) == Some(Parse(from))
  {
    ParseWritten(from);
    ParseWritten(perm);
    var m := Restrict(Parse(from), Parse(perm));
    if m.Some? {
      RestrictDrawn(Parse(from), Parse(perm));
      DrawnWritten(m.value, Parse(from), Parse(perm));
      PrintParse(m.value);
    }
  }

  // ---- well-formed names ----

  predicate OkChar(k: char) {
    || '0' <= k <= '9' || 'a' <= k <= 'z' || 'A' <= k <= 'Z'
    || k == '-' || k == '_' || k == ',' || k == '(' || k == ')' || k == '.' || k == '$'
  }

  predicate OkText(s: string) {
    forall i :: 0 <= i < |s| ==> OkChar(s[i])
  }

  /** A cell that starts the listing of extended attributes. */
  predicate Bang(c: string) {
    |c| >= 2 && c[0] == '!'
  }

  predicate GoodCell(c: string) {
    if |c| == 0 then false
    else if |c| == 1 then c == "*" || c == "+" || OkChar(c[0])
    else OkText(if c[0] == '!' then c[1..] else c)
  }

  predicate HasBang(cells: seq<string>) {
    exists i :: 0 <= i < |cells| && Bang(cells[i])
  }

  /** Good cells, at most one star and at most one bang. */
  predicate Accepted(cells: seq<string>) {
    && (forall i :: 0 <= i < |cells| ==> GoodCell(cells[i]))
    && (forall i, j :: 0 <= i < j < |cells| ==> cells[i] != "*" || cells[j] != "*")
    && (forall i, j :: 0 <= i < j < |cells| ==> !(Bang(cells[i]) && Bang(cells[j])))
  }

  method AllOk(c: string) returns (ok: bool)
    ensures ok <==> OkText(c)
  {
    for i := 0 to |c|
      invariant OkText(c[..i])
    {
      if !OkChar(c[i]) {
        return false;
      }
    }
    assert c[..|c|] == c;
    return true;
  }

  /** One cell: whether it is accepted after the ones before, and the flags it sets. */
  method AnalyzeCell(c: string, star: bool, plus: bool, bang: bool)
    returns (ok: bool, hasStar: bool, hasPlus: bool, hasBang: bool)
    ensures ok <==> GoodCell(c) && !(c == "*" && star) && !(Bang(c) && bang)
    ensures hasStar == (star || c == "*") && hasPlus == (plus || c == "+") && hasBang == (bang || Bang(c))
  {
    hasStar, hasPlus, hasBang := star, plus, bang;
    if |c| == 0 {
      return false, hasStar, hasPlus, hasBang;
    } else if |c| == 1 {
      if c == "*" {
        if hasStar {
          return false, hasStar, hasPlus, hasBang;
        }
        hasStar := true;
      } else if c == "+" {
        hasPlus := true;
      } else if c == "!" {
        return false, hasStar, hasPlus, hasBang;
      } else if !OkChar(c[0]) {
        return false, hasStar, hasPlus, hasBang;
      }
    } else {
      var rest := c;
      if c[0] == '!' {
        if hasBang {
          return false, hasStar, hasPlus, hasBang;
        }
        hasBang := true;
        rest := c[1..];
      }
      var good := AllOk(rest);
      if !good {
        return false, hasStar, hasPlus, hasBang;
      }
    }
    return true, hasStar, hasPlus, hasBang;
  }

  lemma AcceptOne(cells: seq<string>, c: string)
    requires Accepted(cells)
    ensures Accepted(cells + [c]) <==> GoodCell(c) && !(c == "*" && "*" in cells) && !(Bang(c) && HasBang(cells))
  {
    var all := cells + [c];
    if c == "*" && "*" in cells {
      var i :| 0 <= i < |cells| && cells[i] == "*";
      assert all[i] == "*" && all[|cells|] == "*";
    }
    if Bang(c) && HasBang(cells) {
      var i :| 0 <= i < |cells| && Bang(cells[i]);
      assert Bang(all[i]) && Bang(all[|cells|]);
    }
    assert GoodCell(all[|cells|]) == GoodCell(c);
  }

  lemma RejectedStays(cells: seq<string>, n: nat)
    requires n <= |cells| && !Accepted(cells[..n])
    ensures !Accepted(cells)
  {
    if Accepted(cells) {
      forall i | 0 <= i < n ensures GoodCell(cells[..n][i]) {
        assert GoodCell(cells[i]);
      }
    }
  }

  /**
   * The check of a resource name. The flags describe the cells looked at: all of them for a valid name, and
   * up to and including the first that is refused for an invalid one.
   */
  method AnalyzeSuffix(uri: string) returns (valid: bool, hasStar: bool, hasPlus: bool, hasBang: bool, ghost n: nat)
    ensures valid <==> Accepted(Split(uri))
    ensures n <= |Split(uri)| && (valid ==> n == |Split(uri)|)
    ensures !valid ==> n > 0 && Accepted(Split(uri)[..n - 1]) && !Accepted(Split(uri)[..n])
    ensures hasStar == ("*" in Split(uri)[..n]) && hasPlus == ("+" in Split(uri)[..n])
    ensures hasBang == HasBang(Split(uri)[..n])
  {
    var cells := Split(uri);
    valid, hasStar, hasPlus, hasBang := false, false, false, false;
    for i := 0 to |cells|
      invariant Accepted(cells[..i])
      invariant hasStar == ("*" in cells[..i]) && hasPlus == ("+" in cells[..i]) && hasBang == HasBang(cells[..i])
    {
      AcceptOne(cells[..i], cells[i]);
      HasOne(cells[..i], cells[i]);
      assert cells[..i + 1] == cells[..i] + [cells[i]];
      var ok;
      ok, hasStar, hasPlus, hasBang := AnalyzeCell(cells[i], hasStar, hasPlus, hasBang);
      n := i + 1;
      if !ok {
        RejectedStays(cells, i + 1);
        return;
      }
    }
    n := |cells|;
    assert cells[..n] == cells;
    valid := true;
  }

  lemma HasOne(cells: seq<string>, c: string)
    ensures HasBang(cells + [c]) <==> HasBang(cells) || Bang(c)
    ensures forall d :: d in cells + [c] <==> d in cells || d == c
  {
    var all := cells + [c];
    if HasBang(cells) {
      var i :| 0 <= i < |cells| && Bang(cells[i]);
      assert Bang(all[i]);
    }
    assert all[|cells|] == c;
  }

  /** A valid name is a simple pattern: at most one star. */
  lemma AcceptedSimple(uri: string)
    requires Accepted(Split(uri))
    ensures Simple(Parse(uri))
  {
    var w, p := Split(uri), Parse(uri);
    var i := FirstStar(p, 0);
    if i < |p| {
      assert CellOf(w[i]) == Star;
      forall j | i < j < |p| ensures p[j] != Star {
        assert w[j] != "*";
      }
      StarredShape(p, i);
    }
  }
}
