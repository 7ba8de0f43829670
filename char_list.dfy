/**
 The per-window character statistics: one `CharData` record per successor
 character, and the list operations training uses on them (`addFirst` and
 `update`). The list is an ordered sequence; where `update` places a
 character it has not seen before is deliberately left open.
 */
module CharList {

  /** One observed successor: the character, how often it followed the
      window, its probability and its cumulative probability. */
  datatype CharData = CharData(chr: char, count: nat, p: real, cp: real)

  /** A fresh record for a first occurrence: counted once, no probabilities yet. */
  function NewCharData(c: char): CharData
  {
    CharData(c, 1, 0.0, 0.0)
  }

  /** How often `c` is counted in `l` (the sum over every entry for `c`). */
  function CountOf(l: seq<CharData>, c: char): nat
  {
    if l == [] then 0
    else (if l[0].chr == c then l[0].count else 0) + CountOf(l[1..], c)
  }

  /** The sum of all counts, accumulated in list order. */
  function TotalCount(l: seq<CharData>): nat
  {
    if l == [] then 0 else TotalCount(l[..|l| - 1]) + l[|l| - 1].count
  }

  /** At most one entry per character. */
  predicate Distinct(l: seq<CharData>)
  {
    forall i, j :: 0 <= i < j < |l| ==> l[i].chr != l[j].chr
  }

  /** The invariant of every list in a trained table: non-empty, one entry per
      character, every count at least one. */
  predicate Counted(l: seq<CharData>)
  {
    |l| > 0 && Distinct(l) && forall k :: 0 <= k < |l| ==> l[k].count >= 1
  }

  /** The entries for characters other than `c`, in list order. */
  function Others(l: seq<CharData>, c: char): seq<CharData>
  {
    if l == [] then []
    else (if l[0].chr == c then [] else [l[0]]) + Others(l[1..], c)
  }

  /** Two lists that hold the same characters with the same counts, in the same order. */
  predicate SameCounts(a: seq<CharData>, b: seq<CharData>)
  {
    |a| == |b| && forall k :: 0 <= k < |a| ==> a[k].chr == b[k].chr && a[k].count == b[k].count
  }

  /** Position of the entry for `c`, or -1 when there is none. */
  function IndexOf(l: seq<CharData>, c: char): (k: int)
    ensures -1 <= k < |l|
    ensures k >= 0 ==> l[k].chr == c && forall j :: 0 <= j < k ==> l[j].chr != c
    ensures k == -1 ==> forall j :: 0 <= j < |l| ==> l[j].chr != c
  {
    if l == [] then -1
    else if l[0].chr == c then 0
    else
      var k := IndexOf(l[1..], c);
      if k < 0 then -1 else k + 1
  }

  lemma {:induction false} CountOfAppend(a: seq<CharData>, b: seq<CharData>, c: char)
    ensures CountOf(a + b, c) == CountOf(a, c) + CountOf(b, c)
  {
    if a == [] {
      assert a + b == b;
    } else {
      assert (a + b)[1..] == a[1..] + b;
      CountOfAppend(a[1..], b, c);
    }
  }

  lemma {:induction false} TotalCountAppend(a: seq<CharData>, b: seq<CharData>)
    ensures TotalCount(a + b) == TotalCount(a) + TotalCount(b)
    decreases |b|
  {
    if b == [] {
      assert a + b == a;
    } else {
      var b' := b[..|b| - 1];
      assert (a + b)[..|a + b| - 1] == a + b';
      TotalCountAppend(a, b');
    }
  }

  lemma {:induction false} OthersAppend(a: seq<CharData>, b: seq<CharData>, c: char)
    ensures Others(a + b, c) == Others(a, c) + Others(b, c)
  {
    if a == [] {
      assert a + b == b;
    } else {
      assert (a + b)[1..] == a[1..] + b;
      OthersAppend(a[1..], b, c);
    }
  }

  lemma CountOfSingle(x: CharData, c: char)
    ensures CountOf([x], c) == if x.chr == c then x.count else 0
  {
    assert [x][1..] == [];
  }

  lemma TotalCountSingle(x: CharData)
    ensures TotalCount([x]) == x.count
  {
    assert [x][..0] == [];
  }

  lemma OthersSingle(x: CharData, c: char)
    ensures Others([x], c) == if x.chr == c then [] else [x]
  {
    assert [x][1..] == [];
  }

  /** An entry's count is part of the count of its character. */
  lemma {:induction false} CountOfAtLeast(l: seq<CharData>, k: nat)
    requires k < |l|
    ensures CountOf(l, l[k].chr) >= l[k].count
  {
    if k > 0 {
      CountOfAtLeast(l[1..], k - 1);
    }
  }

  /** Lists that agree on characters and counts agree on every count derived from them. */
  lemma {:induction false} SameCountsCounts(a: seq<CharData>, b: seq<CharData>)
    requires SameCounts(a, b)
    ensures forall c :: CountOf(a, c) == CountOf(b, c)
    ensures TotalCount(a) == TotalCount(b)
    ensures Counted(a) <==> Counted(b)
  {
    if a != [] {
      SameCountsCounts(a[1..], b[1..]);
      SameCountsCounts(a[..|a| - 1], b[..|b| - 1]);
    }
  }

  /** `addFirst`: a new record for `c` in front of the list. It counts `c`
      once more, leaves the entries of other characters as they were, and
      keeps a list without an entry for `c` distinct and well formed. */
  function AddFirst(l: seq<CharData>, c: char): (r: seq<CharData>)
    ensures |r| == |l| + 1 && r[0] == NewCharData(c) && r[1..] == l
    ensures forall d :: CountOf(r, d) == CountOf(l, d) + (if d == c then 1 else 0)
    ensures TotalCount(r) == TotalCount(l) + 1
    ensures Others(r, c) == Others(l, c)
    ensures (forall k :: 0 <= k < |l| ==> l[k].chr != c) ==> (Distinct(l) ==> Distinct(r)) && (Counted(l) ==> Counted(r))
  {
    var r := [NewCharData(c)] + l;
    assert r == l[..0] + [NewCharData(c)] + l[0..];
    InsertNew(l, c, 0, r);
    if forall k :: 0 <= k < |l| ==> l[k].chr != c then InsertNewCounted(l, c, 0, r); r else r
  }

  /** Placing a new record anywhere in a list of other characters: it is
      counted once and leaves the other entries, in their order, as they were. */
  lemma InsertNew(l: seq<CharData>, c: char, pos: nat, r: seq<CharData>)
    requires pos <= |l| && r == l[..pos] + [NewCharData(c)] + l[pos..]
    ensures forall d :: CountOf(r, d) == CountOf(l, d) + (if d == c then 1 else 0)
    ensures TotalCount(r) == TotalCount(l) + 1
    ensures Others(r, c) == Others(l, c)
  {
    forall d ensures CountOf(r, d) == CountOf(l, d) + (if d == c then 1 else 0) {
      InsertNewCount(l, c, pos, r, d);
    }
    InsertNewTotal(l, c, pos, r);
    InsertNewOthers(l, c, pos, r);
  }

  lemma InsertNewCount(l: seq<CharData>, c: char, pos: nat, r: seq<CharData>, d: char)
    requires pos <= |l| && r == l[..pos] + [NewCharData(c)] + l[pos..]
    ensures CountOf(r, d) == CountOf(l, d) + (if d == c then 1 else 0)
  {
    var x := NewCharData(c);
    assert l == l[..pos] + l[pos..];
    CountOfAppend(l[..pos] + [x], l[pos..], d);
    CountOfAppend(l[..pos], [x], d);
    CountOfAppend(l[..pos], l[pos..], d);
    CountOfSingle(x, d);
  }

  lemma InsertNewTotal(l: seq<CharData>, c: char, pos: nat, r: seq<CharData>)
    requires pos <= |l| && r == l[..pos] + [NewCharData(c)] + l[pos..]
    ensures TotalCount(r) == TotalCount(l) + 1
  {
    var x := NewCharData(c);
    assert l == l[..pos] + l[pos..];
    TotalCountAppend(l[..pos] + [x], l[pos..]);
    TotalCountAppend(l[..pos], [x]);
    TotalCountAppend(l[..pos], l[pos..]);
    TotalCountSingle(x);
  }

  lemma InsertNewOthers(l: seq<CharData>, c: char, pos: nat, r: seq<CharData>)
    requires pos <= |l| && r == l[..pos] + [NewCharData(c)] + l[pos..]
    ensures Others(r, c) == Others(l, c)
  {
    var x := NewCharData(c);
    assert l == l[..pos] + l[pos..];
    OthersAppend(l[..pos] + [x], l[pos..], c);
    OthersAppend(l[..pos], [x], c);
    OthersAppend(l[..pos], l[pos..], c);
    OthersSingle(x, c);
  }

  /** Inserting a character that has no entry keeps the list distinct and every count positive. */
  lemma InsertNewCounted(l: seq<CharData>, c: char, pos: nat, r: seq<CharData>)
    requires pos <= |l| && r == l[..pos] + [NewCharData(c)] + l[pos..]
    requires forall k :: 0 <= k < |l| ==> l[k].chr != c
    ensures Distinct(l) ==> Distinct(r)
    ensures Counted(l) ==> Counted(r)
  {
    assert forall j :: 0 <= j < pos ==> r[j] == l[j];
    assert forall j :: pos < j < |r| ==> r[j] == l[j - 1];
  }

  /** Incrementing entry `k` adds one to the count of its character and
      changes no other character's entries. */
  lemma IncrementAt(l: seq<CharData>, k: nat, r: seq<CharData>)
    requires k < |l| && r == l[k := l[k].(count := l[k].count + 1)]
    ensures forall d :: CountOf(r, d) == CountOf(l, d) + (if d == l[k].chr then 1 else 0)
    ensures TotalCount(r) == TotalCount(l) + 1
    ensures Others(r, l[k].chr) == Others(l, l[k].chr)
  {
    var c := l[k].chr;
    var x := r[k];
    assert l == l[..k] + [l[k]] + l[k + 1..];
    assert r == l[..k] + [x] + l[k + 1..];
    forall d ensures CountOf(r, d) == CountOf(l, d) + (if d == c then 1 else 0) {
      CountOfAppend(l[..k] + [x], l[k + 1..], d);
      CountOfAppend(l[..k], [x], d);
      CountOfAppend(l[..k] + [l[k]], l[k + 1..], d);
      CountOfAppend(l[..k], [l[k]], d);
      CountOfSingle(x, d);
      CountOfSingle(l[k], d);
    }
    TotalCountAppend(l[..k] + [x], l[k + 1..]);
    TotalCountAppend(l[..k], [x]);
    TotalCountAppend(l[..k] + [l[k]], l[k + 1..]);
    TotalCountAppend(l[..k], [l[k]]);
    TotalCountSingle(x);
    TotalCountSingle(l[k]);
    OthersAppend(l[..k] + [x], l[k + 1..], c);
    OthersAppend(l[..k], [x], c);
    OthersAppend(l[..k] + [l[k]], l[k + 1..], c);
    OthersAppend(l[..k], [l[k]], c);
    OthersSingle(x, c);
    OthersSingle(l[k], c);
  }

  /** `r` is `l` with a new record for `c` placed at position `pos`. */
  predicate InsertedAt(l: seq<CharData>, c: char, pos: int, r: seq<CharData>)
  {
    0 <= pos <= |l| && r == l[..pos] + [NewCharData(c)] + l[pos..]
  }

  /** `update`: count one more occurrence of `c`. An existing entry for `c`
      has its count incremented; otherwise a new record for `c` is inserted at
      a position this model leaves unspecified. */
  method Update(l: seq<CharData>, c: char) returns (r: seq<CharData>)
    ensures forall d :: CountOf(r, d) == CountOf(l, d) + (if d == c then 1 else 0)
    ensures TotalCount(r) == TotalCount(l) + 1
    ensures Others(r, c) == Others(l, c)
    ensures exists k :: 0 <= k < |r| && r[k].chr == c
    ensures Distinct(l) ==> Distinct(r)
    ensures Counted(l) ==> Counted(r)
    ensures l == [] ==> r == [NewCharData(c)]
    ensures IndexOf(l, c) >= 0 ==> r == l[IndexOf(l, c) := l[IndexOf(l, c)].(count := l[IndexOf(l, c)].count + 1)]
    ensures IndexOf(l, c) < 0 ==> exists pos :: InsertedAt(l, c, pos, r)
  {
    var k := IndexOf(l, c);
    if k >= 0 {
      r := l[k := l[k].(count := l[k].count + 1)];
      IncrementAt(l, k, r);
      assert r[k].chr == c;
    } else {
      var pos :| 0 <= pos <= |l|;
      r := l[..pos] + [NewCharData(c)] + l[pos..];
      assert InsertedAt(l, c, pos, r);
      InsertNew(l, c, pos, r);
      InsertNewCounted(l, c, pos, r);
      assert r[pos].chr == c;
    }
  }

}
