/** Vocabulary shared by the modules of the project: an option type and small
    facts about finite sets of sequence numbers. */
module Common {

  datatype Option<+T> = None | Some(value: T)

  function Max(a: int, b: int): int { if a <= b then b else a }

  function Min(a: int, b: int): int { if a <= b then a else b }

  function Ind(b: bool): nat { if b then 1 else 0 }

  /** `n` times `x`, kept linear for proofs. */
  function Times(n: nat, x: nat): nat { if n == 0 then 0 else Times(n - 1, x) + x }

  /** A nonempty finite set of naturals has a least element. */
  lemma {:induction false} LeastElement(s: set<nat>) returns (m: nat)
    requires s != {}
    ensures m in s && forall x :: x in s ==> m <= x
    decreases s
  {
    var y :| y in s;
    assert s == (s - {y}) + {y};
    if s - {y} == {} {
      m := y;
    } else {
      var m' := LeastElement(s - {y});
      m := if m' <= y then m' else y;
      forall x | x in s ensures m <= x { if x != y { assert x in s - {y}; } }
    }
  }

  /** The least element of a nonempty set of seqs. */
  ghost function MinOf(s: set<nat>): (m: nat)
    requires s != {}
    ensures m in s && forall x :: x in s ==> m <= x
  {
    assert exists m :: m in s && forall x :: x in s ==> m <= x by {
      var m := LeastElement(s);
    }
    var m :| m in s && forall x :: x in s ==> m <= x;
    m
  }

  /** The seqs `lo, lo + 1, .., hi - 1`. */
  function Range(lo: nat, hi: nat): (r: set<nat>)
    ensures forall x :: x in r <==> lo <= x < hi
    decreases hi - lo
  {
    if lo < hi then {lo} + Range(lo + 1, hi) else {}
  }

  /** A subset is no larger, and a set splits into the part inside `b` and the rest. */
  lemma {:induction false} SubsetSize<T>(a: set<T>, b: set<T>)
    requires a <= b
    ensures |a| <= |b|
    ensures |b - a| == |b| - |a|
    ensures |a| == |b| ==> a == b
  {
    assert b == a + (b - a);
    if |a| == |b| {
      assert |b - a| == 0;
      assert b - a == {};
    }
  }

  /** Taking three disjoint parts out of a set. */
  lemma SplitSize<T>(all: set<T>, a: set<T>, b: set<T>, c: set<T>)
    requires a <= all && b <= all && c <= all
    requires a !! b && a !! c && b !! c
    ensures |all| == |a| + |b| + |c| + |all - a - b - c|
  {
    SubsetSize(a, all);
    SubsetSize(b, all - a);
    SubsetSize(c, all - a - b);
  }

  /** Removing keys in two goes. */
  lemma MinusMinus<K, V>(m: map<K, V>, a: set<K>, b: set<K>)
    ensures (m - a) - b == m - (a + b)
  {
  }

  lemma ConcatAssoc<T>(a: seq<T>, b: seq<T>, c: seq<T>)
    ensures (a + b) + c == a + (b + c)
  {
  }

  /** The tail of a concatenation whose first part is not empty. */
  lemma ConcatTail<T>(a: seq<T>, b: seq<T>)
    requires a != []
    ensures (a + b)[0] == a[0] && (a + b)[1..] == a[1..] + b
  {
  }

  /** All but the last of a concatenation whose second part is not empty. */
  lemma ConcatInit<T>(a: seq<T>, b: seq<T>)
    requires b != []
    ensures (a + b)[|a + b| - 1] == b[|b| - 1] && (a + b)[..|a + b| - 1] == a + b[..|b| - 1]
  {
  }

  /** Taking one more element behind a prefix. */
  lemma TakeNext<T>(a: seq<T>, b: seq<T>, i: nat)
    requires i < |b|
    ensures a + b[..i + 1] == (a + b[..i]) + [b[i]]
  {
    assert b[..i + 1] == b[..i] + [b[i]];
    ConcatAssoc(a, b[..i], [b[i]]);
  }
}
