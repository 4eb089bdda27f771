/**
 * The JSON-file record stores behind the notes and eleves back ends.
 *
 * Each store is a list of records keyed by an integer `id`; the file is
 * read, changed and written back by every operation. Here the store is the
 * sequence itself: an operation takes the stored sequence and returns the
 * sequence it would write, together with the value it returns to its caller.
 * An operation that does not write the file returns the sequence unchanged.
 */
module Store {
  import opened Common

  /** One stored record: the id the store is keyed on and the rest of its fields. */
  datatype Rec<P> = Rec(id: int, data: P)

  /** What an append returns: the new store contents and the record appended. */
  datatype Added<P> = Added(items: seq<Rec<P>>, rec: Rec<P>)

  /** What an in-place update returns: the new store contents and the updated record, if any. */
  datatype Updated<P> = Updated(items: seq<Rec<P>>, result: Option<Rec<P>>)

  /** What a delete returns: the new store contents and whether anything was removed. */
  datatype Deleted<P> = Deleted(items: seq<Rec<P>>, removed: bool)

  /** Some record of `s` has id `k`. */
  predicate HasId<P>(s: seq<Rec<P>>, k: int) {
    exists i :: 0 <= i < |s| && s[i].id == k
  }

  /** No two records of `s` share an id: the invariant the operations keep. */
  predicate UniqueIds<P>(s: seq<Rec<P>>) {
    forall i, j :: 0 <= i < j < |s| ==> s[i].id != s[j].id
  }

  /** The greatest id in a non-empty store (Python's `max(item["id"] for item in items)`). */
  function MaxId<P>(s: seq<Rec<P>>): (m: int)
    requires |s| > 0
    ensures forall i :: 0 <= i < |s| ==> s[i].id <= m
    ensures HasId(s, m)
  {
    if |s| == 1 then s[0].id
    else
      var t := MaxId(s[1..]);
      if s[0].id >= t then s[0].id else t
  }

  /** The id the next appended record gets: 1 for an empty store, else the greatest id plus one. */
  function NextId<P>(s: seq<Rec<P>>): (n: int)
    ensures |s| == 0 ==> n == 1
    ensures |s| > 0 ==> HasId(s, n - 1)
    ensures forall i :: 0 <= i < |s| ==> s[i].id < n
  {
    if |s| == 0 then 1 else MaxId(s) + 1
  }

  /** The index of the first record with id `k`, scanning from the front. */
  function FindIndex<P>(s: seq<Rec<P>>, k: int): (r: Option<nat>)
    ensures r.Some? ==> r.value < |s| && s[r.value].id == k
    ensures r.Some? ==> forall j :: 0 <= j < r.value ==> s[j].id != k
    ensures r.None? <==> !HasId(s, k)
  {
    if |s| == 0 then None
    else if s[0].id == k then Some(0)
    else
      match FindIndex(s[1..], k)
      case None => None
      case Some(i) => Some(i + 1)
  }

  /** Appends a record carrying `d` under a fresh id. */
  function Add<P>(s: seq<Rec<P>>, d: P): (r: Added<P>)
    ensures r.items == s + [r.rec]
    ensures r.rec.data == d
    ensures |s| == 0 ==> r.rec.id == 1
    ensures |s| > 0 ==> HasId(s, r.rec.id - 1)
    ensures forall i :: 0 <= i < |s| ==> s[i].id < r.rec.id
  {
    var rec := Rec(NextId(s), d);
    Added(s + [rec], rec)
  }

  /** The first record with id `k`, or `None`. */
  function Get<P>(s: seq<Rec<P>>, k: int): (r: Option<Rec<P>>)
    ensures r.None? <==> !HasId(s, k)
    ensures r.Some? ==> r.value.id == k
    ensures r.Some? ==> exists i :: 0 <= i < |s| && s[i] == r.value && forall j :: 0 <= j < i ==> s[j].id != k
  {
    match FindIndex(s, k)
    case None => None
    case Some(i) => Some(s[i])
  }

  /**
   * Replaces the first record with id `k` by a record carrying `d` under the
   * same id; every other record keeps its place and contents. Without such a
   * record the store is left as it was and the result is `None`.
   */
  function Update<P>(s: seq<Rec<P>>, k: int, d: P): (r: Updated<P>)
    ensures |r.items| == |s|
    ensures forall i :: 0 <= i < |s| ==> r.items[i].id == s[i].id
    ensures r.result.None? <==> !HasId(s, k)
    ensures r.result.None? ==> r.items == s
    ensures r.result.Some? ==> r.result.value == Rec(k, d)
    ensures r.result.Some? ==> exists i :: 0 <= i < |s| && s[i].id == k && r.items == s[i := Rec(k, d)]
                                           && forall j :: 0 <= j < i ==> s[j].id != k
  {
    match FindIndex(s, k)
    case None => Updated(s, None)
    case Some(i) => Updated(s[i := Rec(k, d)], Some(Rec(k, d)))
  }

  /** How many records of `s` have id `k`. */
  function IdCount<P>(s: seq<Rec<P>>, k: int): (n: nat)
    ensures n <= |s|
    ensures n == 0 <==> !HasId(s, k)
  {
    if |s| == 0 then 0
    else (if s[0].id == k then 1 else 0) + IdCount(s[1..], k)
  }

  /**
   * The records of `s` whose id is not `k`, in their original order: a
   * subsequence of `s` that drops exactly the records with id `k`.
   */
  function Without<P>(s: seq<Rec<P>>, k: int): (r: seq<Rec<P>>)
    ensures IsSubsequence(r, s)
    ensures |r| == |s| - IdCount(s, k)
    ensures forall i :: 0 <= i < |r| ==> r[i] in s && r[i].id != k
    ensures forall i :: 0 <= i < |s| && s[i].id != k ==> s[i] in r
    ensures |r| == |s| <==> !HasId(s, k)
  {
    if |s| == 0 then []
    else if s[0].id == k then Without(s[1..], k)
    else [s[0]] + Without(s[1..], k)
  }

  /**
   * Removes every record with id `k`. When none has that id, nothing is
   * written and the result is `false`.
   */
  function Delete<P>(s: seq<Rec<P>>, k: int): (r: Deleted<P>)
    ensures r.removed <==> HasId(s, k)
    ensures !r.removed ==> r.items == s
    ensures !HasId(r.items, k)
    ensures forall i :: 0 <= i < |s| && s[i].id != k ==> s[i] in r.items
    ensures forall i :: 0 <= i < |r.items| ==> r.items[i] in s
    ensures r.removed ==> r.items == Without(s, k)
  {
    var kept := Without(s, k);
    if |kept| == |s| then Deleted(s, false) else Deleted(kept, true)
  }

  /** A record appended by `Add` is what `Get` finds under its id afterwards. */
  lemma GetAfterAdd<P>(s: seq<Rec<P>>, d: P)
    ensures Get(Add(s, d).items, Add(s, d).rec.id) == Some(Add(s, d).rec)
  {
    var a := Add(s, d);
    assert a.items[|s|] == a.rec;
    assert FindIndex(a.items, a.rec.id) == Some(|s|) by {
      var r := FindIndex(a.items, a.rec.id);
      assert HasId(a.items, a.rec.id);
      assert forall j :: 0 <= j < |s| ==> a.items[j].id != a.rec.id by {
        forall j | 0 <= j < |s| ensures a.items[j].id != a.rec.id {
          assert a.items[j] == s[j];
        }
      }
    }
  }

  /** After a delete, no record with that id can be found. */
  lemma GetAfterDelete<P>(s: seq<Rec<P>>, k: int)
    ensures Get(Delete(s, k).items, k) == None
  {
  }

  /** After a successful update, `Get` finds exactly the record the update returned. */
  lemma GetAfterUpdate<P>(s: seq<Rec<P>>, k: int, d: P)
    requires HasId(s, k)
    ensures Get(Update(s, k, d).items, k) == Update(s, k, d).result
  {
  }

  lemma AddKeepsUniqueIds<P>(s: seq<Rec<P>>, d: P)
    requires UniqueIds(s)
    ensures UniqueIds(Add(s, d).items)
  {
  }

  lemma UpdateKeepsUniqueIds<P>(s: seq<Rec<P>>, k: int, d: P)
    requires UniqueIds(s)
    ensures UniqueIds(Update(s, k, d).items)
  {
  }

  lemma {:induction false} WithoutKeepsUniqueIds<P>(s: seq<Rec<P>>, k: int)
    requires UniqueIds(s)
    ensures UniqueIds(Without(s, k))
    decreases |s|
  {
    if |s| > 0 {
      WithoutKeepsUniqueIds(s[1..], k);
      if s[0].id != k {
        var rest := Without(s[1..], k);
        forall j | 0 <= j < |rest|
          ensures rest[j].id != s[0].id
        {
          assert rest[j] in s[1..];
        }
      }
    }
  }

  lemma DeleteKeepsUniqueIds<P>(s: seq<Rec<P>>, k: int)
    requires UniqueIds(s)
    ensures UniqueIds(Delete(s, k).items)
  {
    WithoutKeepsUniqueIds(s, k);
  }

  /** With unique ids, a successful delete removes exactly one record. */
  lemma {:induction false} DeleteRemovesOne<P>(s: seq<Rec<P>>, k: int)
    requires UniqueIds(s)
    requires HasId(s, k)
    ensures |Delete(s, k).items| == |s| - 1
    decreases |s|
  {
    WithoutRemovesOne(s, k);
  }

  lemma {:induction false} WithoutRemovesOne<P>(s: seq<Rec<P>>, k: int)
    requires UniqueIds(s)
    requires HasId(s, k)
    ensures |Without(s, k)| == |s| - 1
    decreases |s|
  {
    if s[0].id == k {
      assert !HasId(s[1..], k) by {
        forall i | 0 <= i < |s| - 1 ensures s[1..][i].id != k {
          assert s[1..][i] == s[i + 1];
        }
      }
    } else {
      var i :| 0 <= i < |s| && s[i].id == k;
      assert s[1..][i - 1].id == k;
      WithoutRemovesOne(s[1..], k);
    }
  }
}
