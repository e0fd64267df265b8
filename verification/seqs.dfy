/** Order-preserving filtering, de-duplication and truncation of sequences.
    Every list comprehension of the search pipeline (`[w for w in ws if p(w)]`),
    the `seen`-set loops of the SymSpell conversion and the `[:9]` slices are
    built from the functions here. */
module Seqs {

  /** `a` is obtained from `b` by deleting elements, keeping their order. */
  ghost predicate IsSubseq<T>(a: seq<T>, b: seq<T>)
    decreases |b|
  {
    if a == [] then true
    else if b == [] then false
    else (a[0] == b[0] && IsSubseq(a[1..], b[1..])) || IsSubseq(a, b[1..])
  }

  /** `[x for x in s if keep(x)]`. */
  function Keep<T(!new)>(s: seq<T>, keep: T -> bool): (r: seq<T>)
    ensures |r| <= |s|
    ensures forall i :: 0 <= i < |r| ==> keep(r[i])
    ensures forall x :: x in r <==> x in s && keep(x)
    ensures IsSubseq(r, s)
  {
    if s == [] then []
    else
      assert s == [s[0]] + s[1..];
      if keep(s[0]) then [s[0]] + Keep(s[1..], keep)
      else Keep(s[1..], keep)
  }

  /** The first occurrence of every element, in order of first occurrence
      (what a loop guarded by a `seen` set appends). */
  function Dedup<T(==,!new)>(s: seq<T>): (r: seq<T>)
    ensures |r| <= |s|
    ensures forall x :: x in r <==> x in s
    ensures forall i, j :: 0 <= i < j < |r| ==> r[i] != r[j]
    ensures IsSubseq(r, s)
  {
    if s == [] then []
    else
      var d := Dedup(s[..|s| - 1]);
      var last := s[|s| - 1];
      assert s == s[..|s| - 1] + [last];
      SubseqSnoc(d, s[..|s| - 1], last);
      if last in d then d else d + [last]
  }

  /** Python's `s[:n]`. */
  function Take<T>(s: seq<T>, n: int): (r: seq<T>)
    ensures |r| == if n <= 0 then 0 else if n < |s| then n else |s|
    ensures forall i :: 0 <= i < |r| ==> r[i] == s[i]
  {
    if n <= 0 then [] else if n < |s| then s[..n] else s
  }

  lemma {:induction false} SubseqSkipLast<T>(a: seq<T>, b: seq<T>, x: T)
    requires IsSubseq(a, b)
    ensures IsSubseq(a, b + [x])
    decreases |b|
  {
    if a != [] {
      assert b != [];
      assert (b + [x])[1..] == b[1..] + [x];
      if a[0] == b[0] && IsSubseq(a[1..], b[1..]) {
        SubseqSkipLast(a[1..], b[1..], x);
      } else {
        SubseqSkipLast(a, b[1..], x);
      }
    }
  }

  lemma {:induction false} SubseqSnoc<T>(a: seq<T>, b: seq<T>, x: T)
    requires IsSubseq(a, b)
    ensures IsSubseq(a + [x], b + [x])
    ensures IsSubseq(a, b + [x])
    decreases |b|
  {
    SubseqSkipLast(a, b, x);
    if a == [] {
      if b == [] {
        assert IsSubseq([x][1..], [x][1..]);
      } else {
        SubseqSnoc(a, b[1..], x);
        assert (b + [x])[1..] == b[1..] + [x];
      }
    } else {
      assert b != [];
      assert (b + [x])[1..] == b[1..] + [x];
      assert (a + [x])[1..] == a[1..] + [x];
      if a[0] == b[0] && IsSubseq(a[1..], b[1..]) {
        SubseqSnoc(a[1..], b[1..], x);
      } else {
        SubseqSnoc(a, b[1..], x);
      }
    }
  }

  /** A prefix is a subsequence. */
  lemma {:induction false} PrefixIsSubseq<T>(s: seq<T>, n: nat)
    requires n <= |s|
    ensures IsSubseq(s[..n], s)
    decreases n
  {
    if n > 0 {
      PrefixIsSubseq(s[1..], n - 1);
      assert s[..n][1..] == s[1..][..n - 1];
    }
  }

  lemma {:induction false} SubseqReflexive<T>(s: seq<T>)
    ensures IsSubseq(s, s)
  {
    if s != [] {
      SubseqReflexive(s[1..]);
    }
  }

  /** Deleting in two rounds is deleting. */
  lemma {:induction false} SubseqTransitive<T>(a: seq<T>, b: seq<T>, c: seq<T>)
    requires IsSubseq(a, b) && IsSubseq(b, c)
    ensures IsSubseq(a, c)
    decreases |c|
  {
    if a != [] {
      assert b != [] && c != [];
      if b[0] == c[0] && IsSubseq(b[1..], c[1..]) {
        if a[0] == b[0] && IsSubseq(a[1..], b[1..]) {
          SubseqTransitive(a[1..], b[1..], c[1..]);
        } else {
          SubseqTransitive(a, b[1..], c[1..]);
        }
      } else {
        SubseqTransitive(a, b, c[1..]);
      }
    }
  }

  /** Filtering distributes over concatenation. */
  lemma {:induction false} KeepAppend<T(!new)>(a: seq<T>, b: seq<T>, keep: T -> bool)
    ensures Keep(a + b, keep) == Keep(a, keep) + Keep(b, keep)
  {
    if a == [] {
      assert a + b == b;
    } else {
      var ab := a + b;
      assert ab[0] == a[0] && ab[1..] == a[1..] + b;
      KeepAppend(a[1..], b, keep);
      if keep(a[0]) {
        assert Keep(ab, keep) == [a[0]] + Keep(a[1..] + b, keep);
      }
    }
  }

  /** A filter keeps every occurrence of a kept element and nothing else. */
  lemma {:induction false} KeepMultiset<T(!new)>(s: seq<T>, keep: T -> bool)
    ensures forall x :: multiset(Keep(s, keep))[x] == if keep(x) then multiset(s)[x] else 0
  {
    if s != [] {
      KeepMultiset(s[1..], keep);
      assert s == [s[0]] + s[1..];
    }
  }

  /** Filtering twice with the same predicate is filtering once. */
  lemma {:induction false} KeepIdempotent<T(!new)>(s: seq<T>, keep: T -> bool)
    ensures Keep(Keep(s, keep), keep) == Keep(s, keep)
  {
    if s != [] {
      KeepIdempotent(s[1..], keep);
    }
  }

  /** Two filters give the same sequence in either order. */
  lemma {:induction false} KeepCommute<T(!new)>(s: seq<T>, p: T -> bool, q: T -> bool)
    ensures Keep(Keep(s, p), q) == Keep(Keep(s, q), p)
  {
    if s != [] {
      KeepCommute(s[1..], p, q);
    }
  }

  /** A filter that admits everything the second one keeps can be dropped. */
  lemma {:induction false} KeepAbsorb<T(!new)>(s: seq<T>, weak: T -> bool, strong: T -> bool)
    requires forall x :: x in s && strong(x) ==> weak(x)
    ensures Keep(Keep(s, weak), strong) == Keep(s, strong)
  {
    if s != [] {
      KeepAbsorb(s[1..], weak, strong);
    }
  }

  /** De-duplicating a prefix gives a prefix of the de-duplicated whole. */
  lemma {:induction false} DedupPrefix<T(!new)>(s: seq<T>, n: nat)
    requires n <= |s|
    ensures |Dedup(s[..n])| <= |Dedup(s)|
    ensures Dedup(s[..n]) == Dedup(s)[..|Dedup(s[..n])|]
    decreases |s| - n
  {
    if n < |s| {
      DedupPrefix(s, n + 1);
      assert s[..n + 1][..n] == s[..n];
      assert Dedup(s[..n + 1]) == Dedup(s[..n]) || Dedup(s[..n + 1]) == Dedup(s[..n]) + [s[n]];
    } else {
      assert s[..n] == s;
    }
  }
}
