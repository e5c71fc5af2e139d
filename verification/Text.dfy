/** Text cut at a separator, and put together again. */
module Text {
  function Split(sep: char, s: string): (r: seq<string>)
    ensures |r| > 0
  {
    if s == "" then [""]
    else if s[0] == sep then [""] + Split(sep, s[1..])
    else
      var r := Split(sep, s[1..]);
      [[s[0]] + r[0]] + r[1..]
  }

  function Join(sep: char, parts: seq<string>): (s: string) {
    if parts == [] then ""
    else if |parts| == 1 then parts[0]
    else parts[0] + [sep] + Join(sep, parts[1..])
  }

  lemma {:induction false} JoinSplit(sep: char, s: string)
    ensures Join(sep, Split(sep, s)) == s
  {
    if s != "" {
      var r := Split(sep, s[1..]);
      JoinSplit(sep, s[1..]);
      if s[0] == sep {
        assert ([""] + r)[1..] == r;
        assert s == "" + [sep] + s[1..];
      } else {
        var h := [[s[0]] + r[0]] + r[1..];
        assert h[1..] == r[1..];
        assert s == [s[0]] + s[1..];
        assert |r| > 1 ==> [s[0]] + (r[0] + [sep] + Join(sep, r[1..])) == ([s[0]] + r[0]) + [sep] + Join(sep, r[1..]);
      }
    }
  }

  lemma {:induction false} SplitPart(sep: char, c: string)
    requires sep !in c
    ensures Split(sep, c) == [c]
  {
    if c != "" {
      SplitPart(sep, c[1..]);
      assert [c[0]] + c[1..] == c;
    }
  }

  lemma {:induction false} SplitFirst(sep: char, c: string, rest: string)
    requires sep !in c
    ensures Split(sep, c + [sep] + rest) == [c] + Split(sep, rest)
    decreases |c|
  {
    var s := c + [sep] + rest;
    if c == "" {
      assert s[1..] == rest;
    } else {
      SplitFirst(sep, c[1..], rest);
      assert s[1..] == c[1..] + [sep] + rest;
      var r := [c[1..]] + Split(sep, rest);
      assert r[1..] == Split(sep, rest);
      assert [c[0]] + c[1..] == c;
    }
  }

  lemma {:induction false} SplitJoin(sep: char, parts: seq<string>)
    requires parts != [] && forall i :: 0 <= i < |parts| ==> sep !in parts[i]
    ensures Split(sep, Join(sep, parts)) == parts
    decreases |parts|
  {
    if |parts| == 1 {
      SplitPart(sep, parts[0]);
    } else {
      SplitFirst(sep, parts[0], Join(sep, parts[1..]));
      SplitJoin(sep, parts[1..]);
    }
  }

  lemma {:induction false} SplitLeavesNone(sep: char, s: string)
    ensures forall i :: 0 <= i < |Split(sep, s)| ==> sep !in Split(sep, s)[i]
  {
    if s != "" {
      SplitLeavesNone(sep, s[1..]);
    }
  }
}
