/** The few .NET collection operations the item filter script code relies on
    (List<T>.IndexOf, Insert, RemoveAt, Remove, Add and ObservableCollection<T>.Move),
    stated on sequences, with the facts about them that the rest of the model needs. */
module Collections {

  /** A value or its absence (a C# null reference, a LINQ lookup that found nothing). */
  datatype Option<+T> = None | Some(value: T)

  /** No element occurs twice: distinct positions hold distinct references. */
  ghost predicate Distinct<T>(s: seq<T>) {
    forall i, j :: 0 <= i < j < |s| ==> s[i] != s[j]
  }

  /** `List<T>.IndexOf`: the position of the first element equal to `x`, or -1. */
  function IndexOf<T(==)>(s: seq<T>, x: T): (r: int)
    ensures -1 <= r < |s|
    ensures r == -1 <==> x !in s
    ensures 0 <= r ==> s[r] == x && forall j :: 0 <= j < r ==> s[j] != x
  {
    if |s| == 0 then -1
    else if s[0] == x then 0
    else
      var r := IndexOf(s[1..], x);
      if r == -1 then -1 else r + 1
  }

  /** `List<T>.RemoveAt`: the element at `i` is dropped, the others close up in order. */
  function RemoveAt<T>(s: seq<T>, i: nat): (r: seq<T>)
    requires i < |s|
    ensures |r| == |s| - 1
    ensures forall j :: 0 <= j < i ==> r[j] == s[j]
    ensures forall j :: i <= j < |r| ==> r[j] == s[j + 1]
  {
    s[..i] + s[i + 1..]
  }

  /** `List<T>.Insert`: `x` lands at position `i`, the others keep their order around it. */
  function InsertAt<T>(s: seq<T>, i: nat, x: T): (r: seq<T>)
    requires i <= |s|
    ensures |r| == |s| + 1 && r[i] == x
    ensures forall j :: 0 <= j < i ==> r[j] == s[j]
    ensures forall j :: i < j < |r| ==> r[j] == s[j - 1]
  {
    s[..i] + [x] + s[i..]
  }

  /** `Collection<T>.Remove`: drops the first occurrence of `x`, if there is one. */
  function Remove<T(==)>(s: seq<T>, x: T): seq<T>
  {
    var i := IndexOf(s, x);
    if i < 0 then s else RemoveAt(s, i)
  }

  /** `ObservableCollection<T>.Move`: the element at `from` is taken out and re-inserted at `to`. */
  function Move<T>(s: seq<T>, from: nat, to: nat): seq<T>
    requires from < |s| && to < |s|
  {
    InsertAt(RemoveAt(s, from), to, s[from])
  }

  /** Inserting at `i` and then removing at `i` gives back the original list. */
  lemma RemoveInserted<T>(s: seq<T>, i: nat, x: T)
    requires i <= |s|
    ensures RemoveAt(InsertAt(s, i, x), i) == s
  {
    var r := RemoveAt(InsertAt(s, i, x), i);
    assert |r| == |s|;
    forall j | 0 <= j < |s| ensures r[j] == s[j] {
    }
  }

  /** In a list without repetitions the first occurrence of an element is its only one. */
  lemma {:induction false} IndexOfDistinct<T>(s: seq<T>, i: nat)
    requires Distinct(s) && i < |s|
    ensures IndexOf(s, s[i]) == i
  {
    var r := IndexOf(s, s[i]);
    assert 0 <= r && s[r] == s[i];
  }

  /** With no repetitions, removing an element by value removes it at its position. */
  lemma RemoveDistinct<T>(s: seq<T>, i: nat)
    requires Distinct(s) && i < |s|
    ensures Remove(s, s[i]) == RemoveAt(s, i)
  {
    IndexOfDistinct(s, i);
  }

  /** A list that holds `s[i]` at position `k` and, apart from that, the other elements of `s`
      in their order, is a permutation of `s`: repositioning one element only reorders. */
  lemma {:induction false} RepositionIsPermutation<T>(s: seq<T>, r: seq<T>, i: nat, k: nat)
    requires i < |s| && k < |r| && r[k] == s[i] && RemoveAt(r, k) == RemoveAt(s, i)
    ensures multiset(r) == multiset(s)
  {
    assert s == s[..i] + [s[i]] + s[i + 1..];
    assert r == r[..k] + [r[k]] + r[k + 1..];
    assert multiset(s) == multiset(RemoveAt(s, i)) + multiset{s[i]};
    assert multiset(r) == multiset(RemoveAt(r, k)) + multiset{r[k]};
  }

  /** `Move` keeps a list free of repetitions. */
  lemma MoveDistinct<T>(s: seq<T>, from: nat, to: nat)
    requires Distinct(s) && from < |s| && to < |s|
    ensures Distinct(Move(s, from, to))
  {
    var rest := RemoveAt(s, from);
    assert Distinct(rest) by {
      forall i, j | 0 <= i < j < |rest| ensures rest[i] != rest[j] {
        var si := if i < from then i else i + 1;
        var sj := if j < from then j else j + 1;
        assert rest[i] == s[si] && rest[j] == s[sj] && si < sj;
      }
    }
    assert s[from] !in rest by {
      forall j | 0 <= j < |rest| ensures rest[j] != s[from] {
        var sj := if j < from then j else j + 1;
        assert rest[j] == s[sj] && sj != from;
      }
    }
    InsertDistinct(rest, to, s[from]);
  }

  /** Inserting an element that is not yet there keeps a list free of repetitions. */
  lemma InsertDistinct<T>(s: seq<T>, i: nat, x: T)
    requires Distinct(s) && i <= |s| && x !in s
    ensures Distinct(InsertAt(s, i, x))
  {
    var r := InsertAt(s, i, x);
    forall a, b | 0 <= a < b < |r| ensures r[a] != r[b] {
      if a == i {
        assert r[b] == s[b - 1];
      } else if b == i {
        assert r[a] == s[a];
      } else {
        var sa := if a < i then a else a - 1;
        var sb := if b < i then b else b - 1;
        assert r[a] == s[sa] && r[b] == s[sb] && sa < sb;
      }
    }
  }

  /** Removing an element keeps a list free of repetitions. */
  lemma RemoveAtDistinct<T>(s: seq<T>, i: nat)
    requires Distinct(s) && i < |s|
    ensures Distinct(RemoveAt(s, i))
  {
    var r := RemoveAt(s, i);
    forall a, b | 0 <= a < b < |r| ensures r[a] != r[b] {
      var sa := if a < i then a else a + 1;
      var sb := if b < i then b else b + 1;
      assert r[a] == s[sa] && r[b] == s[sb] && sa < sb;
    }
  }

  /** Moving an element one place is swapping it with its neighbour. */
  lemma MoveAdjacent<T>(s: seq<T>, i: nat, j: nat)
    requires i < |s| && j < |s| && (j == i - 1 || j == i + 1)
    ensures Move(s, i, j) == s[j := s[i]][i := s[j]]
  {
    var m := Move(s, i, j);
    assert |m| == |s|;
    forall k | 0 <= k < |s| ensures m[k] == s[j := s[i]][i := s[j]][k] {
    }
  }
}
