/** Concatenation of a list of sequences, and stable sorting. */
module Sequences {
  function Concat<T>(parts: seq<seq<T>>): seq<T> {
    if parts == [] then [] else Concat(parts[..|parts| - 1]) + parts[|parts| - 1]
  }

  lemma ConcatOneMore<T>(parts: seq<seq<T>>, k: nat)
    requires k < |parts|
    ensures Concat(parts[..k + 1]) == Concat(parts[..k]) + parts[k]
  {
    assert parts[..k + 1][..k] == parts[..k];
  }

  lemma ConcatPush<T>(parts: seq<seq<T>>, last: seq<T>)
    ensures Concat(parts + [last]) == Concat(parts) + last
  {
    assert (parts + [last])[..|parts|] == parts;
  }

  lemma {:induction false} ConcatPrefix<T>(parts: seq<seq<T>>, k: nat)
    requires k <= |parts|
    ensures Concat(parts[..k]) <= Concat(parts)
    decreases |parts|
  {
    if k < |parts| {
      var front := parts[..|parts| - 1];
      ConcatPrefix(front, k);
      assert front[..k] == parts[..k];
    } else {
      assert parts[..k] == parts;
    }
  }

  lemma ConcatTwo<T>(a: seq<T>, b: seq<T>)
    ensures Concat([a, b]) == a + b
  {
    ConcatPush([a], b);
    ConcatPush([], a);
    assert [a] + [b] == [a, b] && [] + [a] == [a];
  }

  // ---------------------------------------------------------------- sorting

  // ahead(a, b): a belongs in front of b.
  function Insert<T>(ahead: (T, T) -> bool, x: T, s: seq<T>): seq<T> {
    if s == [] || !ahead(s[0], x) then [x] + s else [s[0]] + Insert(ahead, x, s[1..])
  }

  function Sorted<T>(ahead: (T, T) -> bool, s: seq<T>): seq<T> {
    if s == [] then [] else Insert(ahead, s[0], Sorted(ahead, s[1..]))
  }

  ghost predicate InOrder<T>(ahead: (T, T) -> bool, s: seq<T>) {
    forall i, j | 0 <= i < j < |s| :: !ahead(s[j], s[i])
  }

  ghost predicate StrictWeakOrder<T(!new)>(ahead: (T, T) -> bool) {
    && (forall a, b :: ahead(a, b) ==> !ahead(b, a))
    && (forall a, b, c :: !ahead(a, b) && !ahead(b, c) ==> !ahead(a, c))
  }

  lemma {:induction false} InsertKeeps<T>(ahead: (T, T) -> bool, x: T, s: seq<T>)
    ensures multiset(Insert(ahead, x, s)) == multiset(s) + multiset{x}
    decreases s
  {
    if !(s == [] || !ahead(s[0], x)) {
      InsertKeeps(ahead, x, s[1..]);
      assert s == [s[0]] + s[1..];
    }
  }

  lemma {:induction false} InsertOrders<T(!new)>(ahead: (T, T) -> bool, x: T, s: seq<T>)
    requires StrictWeakOrder(ahead) && InOrder(ahead, s)
    ensures InOrder(ahead, Insert(ahead, x, s))
    decreases s
  {
    if s != [] {
      var first, rest := s[0], s[1..];
      if ahead(first, x) {
        InsertOrders(ahead, x, rest);
        InsertKeeps(ahead, x, rest);
        var inserted := Insert(ahead, x, rest);
        forall j | 0 <= j < |inserted| ensures !ahead(inserted[j], first) {
          assert inserted[j] in multiset(inserted);
          assert inserted[j] == x || inserted[j] in rest;
        }
      } else {
        forall j | 0 <= j < |s| ensures !ahead(s[j], x) {
          assert j > 0 ==> !ahead(s[j], first);
        }
      }
    }
  }

  lemma {:induction false} SortedOrders<T(!new)>(ahead: (T, T) -> bool, s: seq<T>)
    requires StrictWeakOrder(ahead)
    ensures InOrder(ahead, Sorted(ahead, s)) && multiset(Sorted(ahead, s)) == multiset(s)
    decreases s
  {
    if s != [] {
      SortedOrders(ahead, s[1..]);
      InsertOrders(ahead, s[0], Sorted(ahead, s[1..]));
      InsertKeeps(ahead, s[0], Sorted(ahead, s[1..]));
      assert s == [s[0]] + s[1..];
    }
  }
}
