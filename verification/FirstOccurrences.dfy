/** Removing duplicates from a list while keeping the order of first occurrences. */
module FirstOccurrences {

  /** `items` folded into `acc`, dropping `skip` and whatever is already present. */
  function Fold<T(==)>(items: seq<T>, skip: T, acc: seq<T>): seq<T>
    decreases |items|
  {
    if items == [] then acc else Fold(items[1..], skip, Add(acc, skip, items[0]))
  }

  function Add<T(==)>(acc: seq<T>, skip: T, item: T): seq<T>
  {
    if item == skip || item in acc then acc else acc + [item]
  }

  function FirstIndex<T(==)>(s: seq<T>, x: T): (i: nat)
    requires x in s
    ensures i < |s| && s[i] == x && forall k :: 0 <= k < i ==> s[k] != x
  {
    if s[0] == x then 0 else 1 + FirstIndex(s[1..], x)
  }

  /** `r` holds the distinct entries of `s` other than `skip`, in the order of their first occurrences. */
  ghost predicate KeepsFirst<T(!new)>(s: seq<T>, skip: T, r: seq<T>)
  {
    && (forall x :: x in r <==> x in s && x != skip)
    && (forall a, b :: 0 <= a < b < |r| ==> r[a] in s && r[b] in s && FirstIndex(s, r[a]) < FirstIndex(s, r[b]))
  }

  lemma FirstIndexOfExtension<T>(s: seq<T>, y: T, x: T)
    requires x in s + [y]
    ensures FirstIndex(s + [y], x) == if x in s then FirstIndex(s, x) else |s|
  {
    var t := s + [y];
    assert t[|s|] == y;
    assert forall k :: 0 <= k < |s| ==> t[k] == s[k];
  }

  lemma KeepsFirstStep<T(!new)>(s: seq<T>, skip: T, acc: seq<T>, y: T)
    requires KeepsFirst(s, skip, acc)
    ensures KeepsFirst(s + [y], skip, Add(acc, skip, y))
  {
    var t, r := s + [y], Add(acc, skip, y);
    forall a, b | 0 <= a < b < |r|
      ensures r[a] in t && r[b] in t && FirstIndex(t, r[a]) < FirstIndex(t, r[b])
    {
      assert r[a] == acc[a] && acc[a] in acc;
      assert b < |acc| ==> r[b] == acc[b] && acc[b] in acc;
      FirstIndexOfExtension(s, y, r[a]);
      FirstIndexOfExtension(s, y, r[b]);
    }
  }

  /** Folding from the left computes exactly the list of first occurrences. */
  lemma {:induction false} FoldKeepsFirst<T(!new)>(s: seq<T>, skip: T, i: nat, acc: seq<T>)
    requires i <= |s| && KeepsFirst(s[..i], skip, acc)
    ensures KeepsFirst(s, skip, Fold(s[i..], skip, acc))
    decreases |s| - i
  {
    if i == |s| {
      assert s[..i] == s;
    } else {
      KeepsFirstStep(s[..i], skip, acc, s[i]);
      assert s[..i] + [s[i]] == s[..i + 1];
      assert s[i..][1..] == s[i + 1..];
      FoldKeepsFirst(s, skip, i + 1, Add(acc, skip, s[i]));
    }
  }
}
