/** Strings as sequences of characters, and the few operations on them that the query builders need. */
module Text {
  import opened Wrappers

  /** `sep.join(xs)`. */
  function Join(xs: seq<string>, sep: string): string
  {
    if |xs| == 0 then ""
    else if |xs| == 1 then xs[0]
    else xs[0] + sep + Join(xs[1..], sep)
  }

  /** Every element followed by `suffix`: what a loop of `s += x + suffix` accumulates. */
  function Terminated(xs: seq<string>, suffix: string): string
  {
    if xs == [] then "" else xs[0] + suffix + Terminated(xs[1..], suffix)
  }

  /** `s * n`, which is empty for every `n <= 0`. */
  function Repeat(s: string, n: int): string
    decreases n
  {
    if n <= 0 then "" else s + Repeat(s, n - 1)
  }

  /** Number of occurrences of `c` in `s`. */
  function Count(s: string, c: char): nat
  {
    if s == [] then 0 else (if s[0] == c then 1 else 0) + Count(s[1..], c)
  }

  /** Index of the first `c` in `s`, or `|s|` when there is none. */
  function IndexOf(s: string, c: char): (i: nat)
    ensures i <= |s|
    ensures i < |s| ==> s[i] == c
    ensures forall j :: 0 <= j < i ==> s[j] != c
  {
    if s == [] then 0
    else if s[0] == c then 0
    else 1 + IndexOf(s[1..], c)
  }

  /** `s.split(c)`. */
  function Split(s: string, c: char): (parts: seq<string>)
    ensures |parts| >= 1
    decreases |s|
  {
    var i := IndexOf(s, c);
    if i == |s| then [s] else [s[..i]] + Split(s[i + 1..], c)
  }

  /** The rest of `s` after the prefix `p`, or None when `s` does not start with `p`. */
  function Skip(s: string, p: string): (r: Option<string>)
    ensures r.Some? <==> |p| <= |s| && s[..|p|] == p
    ensures r.Some? ==> s == p + r.value
  {
    if |p| <= |s| && s[..|p|] == p then Some(s[|p|..]) else None
  }

  lemma SkipConcat(p: string, t: string)
    ensures Skip(p + t, p) == Some(t)
  {
    assert (p + t)[..|p|] == p;
    assert (p + t)[|p|..] == t;
  }

  lemma {:induction false} TerminatedSnoc(xs: seq<string>, x: string, suffix: string)
    ensures Terminated(xs + [x], suffix) == Terminated(xs, suffix) + x + suffix
  {
    if xs == [] {
      assert xs + [x] == [x];
    } else {
      assert (xs + [x])[1..] == xs[1..] + [x];
      TerminatedSnoc(xs[1..], x, suffix);
    }
  }

  /** One more turn of an accumulating loop: appending element `i` and the suffix extends the accumulated prefix by one element. */
  lemma TerminatedExtend(front: string, xs: seq<string>, i: nat, suffix: string, acc: string)
    requires i < |xs|
    requires acc == front + Terminated(xs[..i], suffix)
    ensures acc + xs[i] + suffix == front + Terminated(xs[..i + 1], suffix)
  {
    TerminatedSnoc(xs[..i], xs[i], suffix);
    assert xs[..i + 1] == xs[..i] + [xs[i]];
  }

  /** The accumulated form, with its last suffix cut off, is the joined form. */
  lemma {:induction false} TerminatedIsJoin(xs: seq<string>, sep: string)
    requires xs != []
    ensures Terminated(xs, sep) == Join(xs, sep) + sep
  {
    if |xs| > 1 {
      TerminatedIsJoin(xs[1..], sep);
    }
  }

  lemma {:induction false} CountConcat(a: string, b: string, c: char)
    ensures Count(a + b, c) == Count(a, c) + Count(b, c)
  {
    if a != [] {
      assert (a + b)[1..] == a[1..] + b;
      CountConcat(a[1..], b, c);
    } else {
      assert a + b == b;
    }
  }

  lemma {:induction false} CountAbsent(s: string, c: char)
    requires forall i :: 0 <= i < |s| ==> s[i] != c
    ensures Count(s, c) == 0
  {
    if s != [] {
      CountAbsent(s[1..], c);
    }
  }

  lemma {:induction false} CountRepeat(s: string, n: nat, c: char)
    ensures Count(Repeat(s, n), c) == n * Count(s, c)
    decreases n
  {
    if n > 0 {
      CountConcat(s, Repeat(s, n - 1), c);
      CountRepeat(s, n - 1, c);
    }
  }

  /** A character that occurs neither in the elements nor in the separator does not occur in the join. */
  lemma {:induction false} JoinAvoids(xs: seq<string>, sep: string, c: char)
    requires forall k, i :: 0 <= k < |xs| && 0 <= i < |xs[k]| ==> xs[k][i] != c
    requires forall i :: 0 <= i < |sep| ==> sep[i] != c
    ensures forall i :: 0 <= i < |Join(xs, sep)| ==> Join(xs, sep)[i] != c
  {
    if |xs| > 1 {
      JoinAvoids(xs[1..], sep, c);
      var rest := Join(xs[1..], sep);
      forall i | 0 <= i < |Join(xs, sep)| ensures Join(xs, sep)[i] != c {
        if i < |xs[0]| {
          assert Join(xs, sep)[i] == xs[0][i];
        } else if i < |xs[0]| + |sep| {
          assert Join(xs, sep)[i] == sep[i - |xs[0]|];
        } else {
          assert Join(xs, sep)[i] == rest[i - |xs[0]| - |sep|];
        }
      }
    }
  }

  /** No string of the list contains `c`. */
  predicate NoneContains(xs: seq<string>, c: char)
  {
    xs == [] || (c !in xs[0] && NoneContains(xs[1..], c))
  }

  /** Splitting at the first `c`: what comes before it, then the split of what comes after. */
  lemma SplitCons(x: string, rest: string, c: char)
    requires c !in x
    ensures Split(x + ([c] + rest), c) == [x] + Split(rest, c)
  {
    var s := x + ([c] + rest);
    assert s[|x|] == c;
    assert forall j :: 0 <= j < |x| ==> s[j] == x[j];
    assert IndexOf(s, c) == |x|;
    assert s[..|x|] == x;
    assert s[|x| + 1..] == rest;
  }

  /** `Split` undoes `Join` when no element contains the separator character. */
  lemma {:induction false} SplitJoin(xs: seq<string>, c: char)
    requires xs != []
    requires NoneContains(xs, c)
    ensures Split(Join(xs, [c]), c) == xs
  {
    if |xs| == 1 {
      assert IndexOf(xs[0], c) == |xs[0]|;
      assert Join(xs, [c]) == xs[0];
      assert [xs[0]] == xs;
    } else {
      SplitJoin(xs[1..], c);
      assert Join(xs, [c]) == xs[0] + ([c] + Join(xs[1..], [c]));
      SplitCons(xs[0], Join(xs[1..], [c]), c);
      assert [xs[0]] + xs[1..] == xs;
    }
  }
}
