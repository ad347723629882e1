/**
 The two string operations the middleware relies on, as JavaScript defines them:
 `String.prototype.split` with a one-character separator (used to take the token
 out of the `Authorization` header) and `Array.prototype.join` (used to list the
 allowed roles in a denial message). Each is proved to undo the other.
 */
module Text {
  import opened Optional

  /** Position of the first `c` in `s`, or None when `s` has none. */
  function IndexOf(s: string, c: char): (r: Option<nat>)
    ensures r.None? <==> c !in s
    ensures r.Some? ==> r.value < |s| && s[r.value] == c && c !in s[..r.value]
  {
    if |s| == 0 then None
    else if s[0] == c then Some(0)
    else
      match IndexOf(s[1..], c)
      case None => None
      case Some(i) =>
        assert s[..i + 1] == [s[0]] + s[1..][..i];
        Some(i + 1)
  }

  /** The elements of `xs` with `sep` between neighbours; the empty list joins to "". */
  function Join(xs: seq<string>, sep: string): (r: string)
    ensures |xs| == 0 ==> r == ""
    ensures |xs| == 1 ==> r == xs[0]
  {
    if |xs| == 0 then ""
    else if |xs| == 1 then xs[0]
    else xs[0] + sep + Join(xs[1..], sep)
  }

  /**
   The fields of `s` between occurrences of `c`. Like JavaScript's split, the
   result is never empty, and "" splits to [""].
   */
  function Split(s: string, c: char): (parts: seq<string>)
    ensures |parts| >= 1
    ensures |parts| == 1 <==> c !in s
    ensures forall k :: 0 <= k < |parts| ==> c !in parts[k]
    ensures Join(parts, [c]) == s
    decreases |s|
  {
    match IndexOf(s, c)
    case None => [s]
    case Some(i) =>
      var tail := Split(s[i + 1..], c);
      var parts := [s[..i]] + tail;
      assert parts[1..] == tail;
      assert s == s[..i] + [c] + s[i + 1..];
      parts
  }

  /** The first `c` in `a + [c] + b` is the one after `a` when `a` holds none. */
  lemma IndexOfAfterPrefix(a: string, c: char, b: string)
    requires c !in a
    ensures IndexOf(a + [c] + b, c) == Some(|a|)
  {
    var s := a + [c] + b;
    assert s[|a|] == c;
    assert forall j :: 0 <= j < |a| ==> s[j] == a[j];
    var r := IndexOf(s, c);
    assert forall j :: 0 <= j < r.value ==> s[..r.value][j] == s[j];
  }

  /** Splitting peels off everything before the first separator as one field. */
  lemma SplitFirstField(a: string, c: char, b: string)
    requires c !in a
    ensures Split(a + [c] + b, c) == [a] + Split(b, c)
  {
    var s := a + [c] + b;
    IndexOfAfterPrefix(a, c, b);
    assert s[..|a|] == a;
    assert s[|a| + 1..] == b;
  }

  /** The first field is everything up to the first separator, or the whole string. */
  lemma FirstField(a: string, c: char, b: string)
    requires c !in a
    requires b == "" || b[0] == c
    ensures Split(a + b, c)[0] == a
  {
    if b == "" {
      assert a + b == a;
    } else {
      assert a + b == a + [c] + b[1..];
      SplitFirstField(a, c, b[1..]);
    }
  }

  /** Splitting a joined list gives the list back when no element holds the separator. */
  lemma {:induction false} SplitJoin(xs: seq<string>, c: char)
    requires |xs| >= 1
    requires forall k :: 0 <= k < |xs| ==> c !in xs[k]
    ensures Split(Join(xs, [c]), c) == xs
    decreases |xs|
  {
    if |xs| == 1 {
      assert Join(xs, [c]) == xs[0];
    } else {
      assert Join(xs, [c]) == xs[0] + [c] + Join(xs[1..], [c]);
      SplitFirstField(xs[0], c, Join(xs[1..], [c]));
      SplitJoin(xs[1..], c);
      assert [xs[0]] + xs[1..] == xs;
    }
  }

  /** `t` occurs somewhere in `s` as a contiguous piece. */
  predicate Occurs(t: string, s: string)
    decreases |s|
  {
    (|t| <= |s| && s[..|t|] == t) || (|s| > 0 && Occurs(t, s[1..]))
  }

  /** An occurrence survives putting anything in front. */
  lemma {:induction false} OccursAfter(t: string, p: string, s: string)
    requires Occurs(t, s)
    ensures Occurs(t, p + s)
    decreases |p|
  {
    if |p| > 0 {
      OccursAfter(t, p[1..], s);
      assert (p + s)[1..] == p[1..] + s;
      assert Occurs(t, (p + s)[1..]);
    } else {
      assert p + s == s;
    }
  }

  /** A prefix occurs. */
  lemma OccursAtStart(t: string, s: string)
    ensures Occurs(t, t + s)
  {
    assert (t + s)[..|t|] == t;
  }

  /** Every element of a list occurs in the list joined with any separator. */
  lemma {:induction false} JoinContainsEach(xs: seq<string>, sep: string, k: nat)
    requires k < |xs|
    ensures Occurs(xs[k], Join(xs, sep))
    decreases |xs|
  {
    if |xs| == 1 {
      OccursAtStart(xs[0], "");
      assert xs[0] + "" == xs[0];
    } else if k == 0 {
      OccursAtStart(xs[0], sep + Join(xs[1..], sep));
      assert xs[0] + sep + Join(xs[1..], sep) == xs[0] + (sep + Join(xs[1..], sep));
    } else {
      JoinContainsEach(xs[1..], sep, k - 1);
      OccursAfter(xs[k], xs[0] + sep, Join(xs[1..], sep));
    }
  }

  /** Each element with `p` put in front of it. */
  function PrefixEach(xs: seq<string>, p: string): (ys: seq<string>)
    ensures |ys| == |xs|
    ensures forall k :: 0 <= k < |xs| ==> ys[k] == p + xs[k]
  {
    seq(|xs|, k requires 0 <= k < |xs| => p + xs[k])
  }

  /** Putting `p` in front of the first element of a join puts it in front of the whole. */
  lemma JoinPrefixFirst(p: string, x: string, rest: seq<string>, sep: string)
    ensures Join([p + x] + rest, sep) == p + Join([x] + rest, sep)
  {
    if |rest| > 0 {
      assert ([p + x] + rest)[1..] == rest;
      assert ([x] + rest)[1..] == rest;
    }
  }

  /**
   Joining with a separator `[a] + b` is joining with `[a]` after putting `b` in
   front of every element but the first.
   */
  lemma {:induction false} JoinLongSeparator(xs: seq<string>, a: char, b: string)
    requires |xs| >= 1
    ensures Join(xs, [a] + b) == Join([xs[0]] + PrefixEach(xs[1..], b), [a])
    decreases |xs|
  {
    if |xs| == 1 {
      assert [xs[0]] + PrefixEach(xs[1..], b) == [xs[0]];
    } else {
      var tail := PrefixEach(xs[2..], b);
      JoinLongSeparator(xs[1..], a, b);
      assert xs[1..][1..] == xs[2..];
      assert PrefixEach(xs[1..], b) == [b + xs[1]] + tail;
      JoinPrefixFirst(b, xs[1], tail, [a]);
      assert ([xs[0]] + PrefixEach(xs[1..], b))[1..] == PrefixEach(xs[1..], b);
    }
  }
}
