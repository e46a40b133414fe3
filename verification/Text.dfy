/** Splitting and joining text at a separator character. */
module Text {

  function Split(s: string, c: char): (r: seq<string>)
    ensures |r| >= 1
  {
    if s == "" then [""]
    else
      var r := Split(s[1..], c);
      if s[0] == c then [""] + r else [[s[0]] + r[0]] + r[1..]
  }

  function Join(ps: seq<string>, c: char): string
  {
    if |ps| == 0 then ""
    else if |ps| == 1 then ps[0]
    else ps[0] + [c] + Join(ps[1..], c)
  }

  function Concat(ps: seq<string>): string
  {
    if ps == [] then "" else ps[0] + Concat(ps[1..])
  }

  function Count(s: string, c: char): nat
  {
    if s == "" then 0 else (if s[0] == c then 1 else 0) + Count(s[1..], c)
  }

  lemma {:induction false} JoinSplit(s: string, c: char)
    ensures Join(Split(s, c), c) == s
  {
    if s != "" {
      JoinSplit(s[1..], c);
      var r := Split(s[1..], c);
      if s[0] == c {
        assert ([""] + r)[1..] == r;
        assert s == [c] + s[1..];
      } else {
        var head := [s[0]] + r[0];
        assert ([head] + r[1..])[1..] == r[1..];
        assert s == [s[0]] + s[1..];
        if |r| > 1 {
          assert head + [c] + Join(r[1..], c) == [s[0]] + (r[0] + [c] + Join(r[1..], c));
        }
      }
    }
  }

  /** A first part without separators comes off whole. */
  lemma {:induction false} SplitFirst(a: string, b: string, c: char)
    requires c !in a
    ensures Split(a, c) == [a]
    ensures Split(a + [c] + b, c) == [a] + Split(b, c)
  {
    var s := a + [c] + b;
    if a == "" {
      assert s[1..] == b;
    } else {
      assert c !in a[1..];
      SplitFirst(a[1..], b, c);
      assert a == [a[0]] + a[1..];
      assert s[1..] == a[1..] + [c] + b;
      assert s[0] == a[0];
    }
  }

  lemma {:induction false} SplitJoin(ps: seq<string>, c: char)
    requires ps != [] && forall i :: 0 <= i < |ps| ==> c !in ps[i]
    ensures Split(Join(ps, c), c) == ps
  {
    if |ps| == 1 {
      SplitFirst(ps[0], "", c);
    } else {
      SplitJoin(ps[1..], c);
      SplitFirst(ps[0], Join(ps[1..], c), c);
    }
  }

  lemma {:induction false} JoinSnoc(ps: seq<string>, last: string, c: char)
    requires ps != []
    ensures Join(ps + [last], c) == Join(ps, c) + [c] + last
  {
    if |ps| == 1 {
      assert (ps + [last])[1..] == [last];
    } else {
      assert (ps + [last])[1..] == ps[1..] + [last];
      JoinSnoc(ps[1..], last, c);
    }
  }

  lemma {:induction false} SplitLength(s: string, c: char)
    ensures |Split(s, c)| == 1 + Count(s, c)
  {
    if s != "" {
      SplitLength(s[1..], c);
    }
  }

  lemma {:induction false} CountConcat(a: string, b: string, c: char)
    ensures Count(a + b, c) == Count(a, c) + Count(b, c)
  {
    if a == "" {
      assert a + b == b;
    } else {
      assert (a + b)[1..] == a[1..] + b;
      CountConcat(a[1..], b, c);
    }
  }

  /** Parts are a prefix of parts exactly when the text is a prefix that ends
      at a separator or at the end. */
  lemma {:induction false} PartsPrefix(p: string, s: string, c: char)
    ensures Split(p, c) <= Split(s, c) <==> p <= s && (|s| == |p| || s[|p|] == c)
  {
    if p == "" {
      assert Split(p, c) == [""];
      assert Split(s, c)[0] == "" <==> s == "" || s[0] == c;
    } else if s == "" {
      assert Split(s, c) == [""];
      if p[0] == c {
        assert |Split(p, c)| >= 2;
      } else {
        assert Split(p, c)[0] != "";
      }
    } else {
      PartsPrefix(p[1..], s[1..], c);
      var rp, rs := Split(p[1..], c), Split(s[1..], c);
      assert p <= s <==> p[0] == s[0] && p[1..] <= s[1..];
      PartsOfHeads(p, s, c);
    }
  }

  lemma {:induction false} PrefixCons<T>(a: T, x: seq<T>, b: T, y: seq<T>)
    ensures [a] + x <= [b] + y <==> a == b && x <= y
  {
    var ax, bx := [a] + x, [b] + y;
    assert ax[0] == a && bx[0] == b && ax[1..] == x && bx[1..] == y;
    if ax <= bx {
      assert bx[..|ax|] == ax;
      assert bx[..|ax|][1..] == y[..|x|];
    }
    if a == b && x <= y {
      assert bx[..|ax|] == [b] + y[..|x|];
    }
  }

  lemma {:induction false} PartsOfHeads(p: string, s: string, c: char)
    requires p != "" && s != ""
    ensures Split(p, c) <= Split(s, c) <==> p[0] == s[0] && Split(p[1..], c) <= Split(s[1..], c)
  {
    var rp, rs := Split(p[1..], c), Split(s[1..], c);
    var hp := if p[0] == c then "" else [p[0]] + rp[0];
    var hs := if s[0] == c then "" else [s[0]] + rs[0];
    var tp := if p[0] == c then rp else rp[1..];
    var ts := if s[0] == c then rs else rs[1..];
    assert Split(p, c) == [hp] + tp && Split(s, c) == [hs] + ts;
    hide Split;
    PrefixCons(hp, tp, hs, ts);
    if p[0] != c && s[0] != c {
      assert rp == [rp[0]] + rp[1..] && rs == [rs[0]] + rs[1..];
      PrefixCons(rp[0], rp[1..], rs[0], rs[1..]);
      assert hp == hs <==> p[0] == s[0] && rp[0] == rs[0] by {
        assert hp[0] == p[0] && hs[0] == s[0] && hp[1..] == rp[0] && hs[1..] == rs[0];
      }
    }
  }
}
