/** Sequence helpers: removing every occurrence of a value, and joining texts. */
module Seqs {

  predicate StartsWith<T(==)>(s: seq<T>, prefix: seq<T>) {
    |prefix| <= |s| && s[..|prefix|] == prefix
  }

  predicate EndsWith<T(==)>(s: seq<T>, suffix: seq<T>) {
    |suffix| <= |s| && s[|s| - |suffix|..] == suffix
  }

  predicate Distinct<T(==)>(s: seq<T>) {
    forall i, j :: 0 <= i < j < |s| ==> s[i] != s[j]
  }

  /** `[y for y in s if y != x]`. */
  function Without<T(==)>(s: seq<T>, x: T): (r: seq<T>)
    ensures multiset(r) == multiset(s)[x := 0]
  {
    if s == [] then []
    else
      var rest := Without(s[1..], x);
      assert s == [s[0]] + s[1..];
      if s[0] == x then rest else [s[0]] + rest
  }

  /** Removal works element by element, so the kept elements stay in order. */
  lemma {:induction false} WithoutAppend<T>(a: seq<T>, b: seq<T>, x: T)
    ensures Without(a + b, x) == Without(a, x) + Without(b, x)
  {
    if a == [] {
      assert a + b == b;
    } else {
      assert (a + b)[0] == a[0];
      assert (a + b)[1..] == a[1..] + b;
      WithoutAppend(a[1..], b, x);
    }
  }

  /** Removal changes the sequence exactly when the value occurs in it. */
  lemma {:induction false} WithoutAbsent<T>(s: seq<T>, x: T)
    ensures Without(s, x) == s <==> x !in s
  {
    if s != [] {
      WithoutAbsent(s[1..], x);
      assert s == [s[0]] + s[1..];
    }
    assert multiset(Without(s, x))[x] == 0;
  }

  /** Removing twice removes nothing more. */
  lemma WithoutIdempotent<T>(s: seq<T>, x: T)
    ensures Without(Without(s, x), x) == Without(s, x)
  {
    var r := Without(s, x);
    assert multiset(r)[x] == 0;
    WithoutAbsent(r, x);
  }

  lemma DistinctTail<T>(s: seq<T>)
    requires Distinct(s) && s != []
    ensures Distinct(s[1..]) && s[0] !in s[1..]
  {
    var t := s[1..];
    forall j | 0 <= j < |t| ensures t[j] != s[0] {
      assert t[j] == s[j + 1];
    }
    forall j, k | 0 <= j < k < |t| ensures t[j] != t[k] {
      assert t[j] == s[j + 1] && t[k] == s[k + 1];
    }
  }

  lemma DistinctSplit<T>(s: seq<T>, i: nat)
    requires Distinct(s) && i < |s|
    ensures s[i] !in s[..i] && s[i] !in s[i + 1..]
  {
    var front, back := s[..i], s[i + 1..];
    forall j | 0 <= j < |front| ensures front[j] != s[i] {
      assert front[j] == s[j];
    }
    forall j | 0 <= j < |back| ensures back[j] != s[i] {
      assert back[j] == s[i + 1 + j];
    }
  }

  /** In a sequence without repeats, removal takes out exactly one position. */
  lemma WithoutDistinct<T>(s: seq<T>, i: nat)
    requires Distinct(s) && i < |s|
    ensures Without(s, s[i]) == s[..i] + s[i + 1..]
  {
    DistinctSplit(s, i);
    WithoutAt(s, i);
  }

  lemma WithoutAt<T>(s: seq<T>, i: nat)
    requires i < |s| && s[i] !in s[..i] && s[i] !in s[i + 1..]
    ensures Without(s, s[i]) == s[..i] + s[i + 1..]
  {
    SplitAt(s, i);
    WithoutOne(s[..i], s[i], s[i + 1..]);
  }

  lemma SplitAt<T>(s: seq<T>, i: nat)
    requires i < |s|
    ensures s == s[..i] + ([s[i]] + s[i + 1..])
  {
  }

  lemma WithoutOne<T>(front: seq<T>, x: T, back: seq<T>)
    requires x !in front && x !in back
    ensures Without(front + ([x] + back), x) == front + back
  {
    WithoutAppend(front, [x] + back, x);
    WithoutAppend([x], back, x);
    WithoutAbsent(front, x);
    WithoutAbsent(back, x);
    assert Without([x], x) == [];
  }

  /** An element survives removal exactly when it is not the removed value. */
  lemma WithoutMember<T>(s: seq<T>, x: T, y: T)
    ensures y in Without(s, x) <==> y in s && y != x
  {
    assert y in Without(s, x) <==> multiset(Without(s, x))[y] > 0;
    assert y in s <==> multiset(s)[y] > 0;
  }

  /** Removal keeps a sequence free of repeats. */
  lemma {:induction false} WithoutKeepsDistinct<T>(s: seq<T>, x: T)
    requires Distinct(s)
    ensures Distinct(Without(s, x))
  {
    if s != [] {
      var t := s[1..];
      DistinctTail(s);
      WithoutKeepsDistinct(t, x);
      var r := Without(t, x);
      assert s[0] !in r by {
        assert multiset(r)[s[0]] <= multiset(t)[s[0]] == 0;
      }
    }
  }

  /** `sep.join(parts)`. */
  function Join(parts: seq<string>, sep: string): string {
    if parts == [] then ""
    else if |parts| == 1 then parts[0]
    else parts[0] + sep + Join(parts[1..], sep)
  }

  /** Joining one more part adds the separator and the part at the end. */
  lemma {:induction false} JoinSnoc(parts: seq<string>, p: string, sep: string)
    requires parts != []
    ensures Join(parts + [p], sep) == Join(parts, sep) + sep + p
  {
    if |parts| > 1 {
      assert (parts + [p])[1..] == parts[1..] + [p];
      JoinSnoc(parts[1..], p, sep);
    }
  }
}
