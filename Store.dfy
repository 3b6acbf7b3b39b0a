/**
 * The record store behind the mock handlers: named collections of records,
 * each record keyed by a string `id`. Only the five operations the handlers
 * use are modelled: an ordered `find`, `findById`, `insert` with a fresh id,
 * `update` as an upsert by id, and `remove`.
 *
 * The pure functions describe one collection as a sequence in store order;
 * class `Collection` holds such a sequence and changes it in place, as the
 * store does.
 */
module Store {
  import opened Wrappers

  /** A stored record: the id the store keys it by, and its other fields. */
  datatype Rec<+T> = Rec(id: string, body: T)

  /** No two records of the collection share an id. */
  ghost predicate UniqueIds<T(!new)>(c: seq<Rec<T>>) {
    forall i, j :: 0 <= i < j < |c| ==> c[i].id != c[j].id
  }

  /** Some record of the collection has this id. */
  predicate HasId<T(!new)>(c: seq<Rec<T>>, id: string) {
    exists i :: 0 <= i < |c| && c[i].id == id
  }

  /** Index i holds the first record of c that the matcher accepts. */
  ghost predicate IsFirstMatch<T(!new)>(c: seq<Rec<T>>, matcher: Rec<T> -> bool, i: int) {
    0 <= i < |c| && matcher(c[i]) && forall j :: 0 <= j < i ==> !matcher(c[j])
  }

  /** find(collection, {matcher}): every record the matcher accepts, in store order; empty when none does. */
  function Find<T(!new)>(c: seq<Rec<T>>, matcher: Rec<T> -> bool): (r: seq<Rec<T>>)
    ensures |r| <= |c|
    ensures forall x :: x in r <==> x in c && matcher(x)
  {
    if c == [] then []
    else if matcher(c[0]) then [c[0]] + Find(c[1..], matcher)
    else Find(c[1..], matcher)
  }

  /** The head of what find returns is the first record the matcher accepts. */
  lemma {:induction false} FindHead<T(!new)>(c: seq<Rec<T>>, matcher: Rec<T> -> bool)
    requires Find(c, matcher) != []
    ensures exists i :: IsFirstMatch(c, matcher, i) && Find(c, matcher)[0] == c[i]
  {
    if matcher(c[0]) {
      assert IsFirstMatch(c, matcher, 0);
    } else {
      FindHead(c[1..], matcher);
      var i :| IsFirstMatch(c[1..], matcher, i) && Find(c[1..], matcher)[0] == c[1..][i];
      assert IsFirstMatch(c, matcher, i + 1);
    }
  }

  /** find returns nothing exactly when no record of c matches. */
  lemma FindNoneMatch<T(!new)>(c: seq<Rec<T>>, matcher: Rec<T> -> bool)
    ensures Find(c, matcher) == [] <==> forall i :: 0 <= i < |c| ==> !matcher(c[i])
  {
    var r := Find(c, matcher);
    forall i | 0 <= i < |c| && matcher(c[i]) ensures r != [] {
      assert c[i] in r;
    }
  }

  /** find over two runs of records, one after the other, is find over each run in turn. */
  lemma {:induction false} FindAppend<T(!new)>(a: seq<Rec<T>>, b: seq<Rec<T>>, matcher: Rec<T> -> bool)
    ensures Find(a + b, matcher) == Find(a, matcher) + Find(b, matcher)
  {
    if a == [] {
      assert a + b == b;
    } else {
      assert (a + b)[1..] == a[1..] + b;
      FindAppend(a[1..], b, matcher);
    }
  }

  /** Find keeps store order: its k-th record stands in c after exactly k matches. */
  lemma {:induction false} FindIsOrdered<T(!new)>(c: seq<Rec<T>>, matcher: Rec<T> -> bool, k: nat)
    requires k < |Find(c, matcher)|
    ensures exists i :: 0 <= i < |c| && c[i] == Find(c, matcher)[k] && |Find(c[..i], matcher)| == k
  {
    var n := |c| - 1;
    var init := c[..n];
    assert c == init + [c[n]];
    FindAppend(init, [c[n]], matcher);
    if k < |Find(init, matcher)| {
      FindIsOrdered(init, matcher, k);
      var i :| 0 <= i < |init| && init[i] == Find(init, matcher)[k] && |Find(init[..i], matcher)| == k;
      assert init[..i] == c[..i];
      assert c[i] == Find(c, matcher)[k];
    } else {
      assert c[n] == Find(c, matcher)[k];
    }
  }

  /** findById(collection, id): the record with that id, or absent. */
  function FindById<T(!new)>(c: seq<Rec<T>>, id: string): (r: Option<Rec<T>>)
    ensures r.None? <==> !HasId(c, id)
    ensures r.Some? ==> r.value in c && r.value.id == id
  {
    if c == [] then None
    else if c[0].id == id then Some(c[0])
    else FindById(c[1..], id)
  }

  /** With unique ids, findById returns the one record that has the id. */
  lemma {:induction false} FindByIdUnique<T(!new)>(c: seq<Rec<T>>, x: Rec<T>)
    requires UniqueIds(c) && x in c
    ensures FindById(c, x.id) == Some(x)
  {
    var i :| 0 <= i < |c| && c[i] == x;
    if c[0] != x {
      assert UniqueIds(c[1..]);
      FindByIdUnique(c[1..], x);
    }
  }

  /** The length of the longest id in the collection. */
  function LongestId<T(!new)>(c: seq<Rec<T>>): (n: nat)
    ensures forall x :: x in c ==> |x.id| <= n
  {
    if c == [] then 0
    else
      var rest := LongestId(c[1..]);
      assert forall x :: x in c ==> x == c[0] || x in c[1..];
      if |c[0].id| > rest then |c[0].id| else rest
  }

  /** The id the store gives a newly inserted record: one no record of c has. */
  function FreshId<T(!new)>(c: seq<Rec<T>>): (id: string)
    ensures id != "" && !HasId(c, id)
  {
    seq(LongestId(c) + 1, _ => '#')
  }

  /** The collection after update(collection, rec): rec replaces the first record with its id, or is appended. */
  function Upserted<T(!new)>(c: seq<Rec<T>>, rec: Rec<T>): (r: seq<Rec<T>>)
    ensures rec in r
    ensures forall x :: x in c && x.id != rec.id ==> x in r
    ensures forall x :: x in r ==> x == rec || x in c
  {
    if c == [] then [rec]
    else if c[0].id == rec.id then
      [rec] + c[1..]
    else
      [c[0]] + Upserted(c[1..], rec)
  }

  /** update replaces a record when one has the id and adds one otherwise. */
  lemma {:induction false} UpsertedLength<T(!new)>(c: seq<Rec<T>>, rec: Rec<T>)
    ensures |Upserted(c, rec)| == if HasId(c, rec.id) then |c| else |c| + 1
  {
    if c != [] {
      if c[0].id == rec.id {
        assert HasId(c, rec.id) by { assert c[0].id == rec.id; }
      } else {
        UpsertedLength(c[1..], rec);
        assert HasId(c, rec.id) <==> HasId(c[1..], rec.id) by {
          if HasId(c, rec.id) {
            var k :| 0 <= k < |c| && c[k].id == rec.id;
            assert c[1..][k - 1] == c[k];
          }
          if HasId(c[1..], rec.id) {
            var k :| 0 <= k < |c[1..]| && c[1..][k].id == rec.id;
            assert c[k + 1] == c[1..][k];
          }
        }
      }
    }
  }

  /** update keeps ids unique. */
  lemma {:induction false} UpsertedKeepsUnique<T(!new)>(c: seq<Rec<T>>, rec: Rec<T>)
    requires UniqueIds(c)
    ensures UniqueIds(Upserted(c, rec))
  {
    if c != [] {
      if c[0].id == rec.id {
        var r := Upserted(c, rec);
        forall i, j | 0 <= i < j < |r| ensures r[i].id != r[j].id {
          if i > 0 {
            assert r[i] == c[i];
          }
          assert r[j] == c[j];
        }
      } else {
        assert UniqueIds(c[1..]);
        UpsertedKeepsUnique(c[1..], rec);
        var rest := Upserted(c[1..], rec);
        forall k | 0 <= k < |rest| ensures rest[k].id != c[0].id {
          assert rest[k] in rest;
          if rest[k] != rec {
            assert rest[k] in c[1..];
          }
        }
      }
    }
  }

  /** The collection after remove(collection, record): every record with that id is gone, the rest keep their order. */
  function Removed<T(!new)>(c: seq<Rec<T>>, id: string): (r: seq<Rec<T>>)
    ensures forall x :: x in r <==> x in c && x.id != id
    ensures !HasId(r, id)
  {
    if c == [] then []
    else if c[0].id == id then Removed(c[1..], id)
    else [c[0]] + Removed(c[1..], id)
  }

  /** remove leaves a collection without the id unchanged. */
  lemma {:induction false} RemovedAbsent<T(!new)>(c: seq<Rec<T>>, id: string)
    requires !HasId(c, id)
    ensures Removed(c, id) == c
  {
    if c != [] {
      assert c[0].id != id;
      assert !HasId(c[1..], id) by {
        forall k | 0 <= k < |c[1..]| ensures c[1..][k].id != id {
          assert c[1..][k] == c[k + 1];
        }
      }
      RemovedAbsent(c[1..], id);
      assert [c[0]] + c[1..] == c;
    }
  }

  /** With unique ids, remove keeps them unique and deletes exactly one record when one has the id. */
  lemma {:induction false} RemovedKeepsUnique<T(!new)>(c: seq<Rec<T>>, id: string)
    requires UniqueIds(c)
    ensures UniqueIds(Removed(c, id))
    ensures HasId(c, id) ==> |Removed(c, id)| == |c| - 1
  {
    if c != [] {
      assert UniqueIds(c[1..]);
      RemovedKeepsUnique(c[1..], id);
      var rest := Removed(c[1..], id);
      if c[0].id == id {
        assert !HasId(c[1..], id) by {
          forall k | 0 <= k < |c[1..]| ensures c[1..][k].id != id {
            assert c[1..][k] == c[k + 1];
          }
        }
        RemovedAbsent(c[1..], id);
      } else {
        forall k | 0 <= k < |rest| ensures rest[k].id != c[0].id {
          assert rest[k] in c[1..];
        }
        if HasId(c, id) {
          var k :| 0 <= k < |c| && c[k].id == id;
          assert c[1..][k - 1] == c[k];
        }
      }
    }
  }

  /**
   * One collection of the store, changed in place by the store's
   * operations. Valid(): ids are unique, which insert and update keep.
   */
  class Collection<T(!new)> {
    var records: seq<Rec<T>>

    ghost predicate Valid()
      reads this
    {
      UniqueIds(records)
    }

    constructor ()
      ensures Valid() && records == []
    {
      records := [];
    }

    /** insert(collection, data): stores data under a fresh id and returns the stored record. */
    method Insert(body: T) returns (rec: Rec<T>)
      requires Valid()
      modifies this
      ensures Valid()
      ensures rec.body == body && !HasId(old(records), rec.id)
      ensures records == old(records) + [rec]
    {
      rec := Rec(FreshId(records), body);
      assert forall x :: x in records ==> x.id != rec.id;
      records := records + [rec];
    }

    /** update(collection, data) for data that carries its id: an upsert; returns the stored record. */
    method Update(rec: Rec<T>) returns (stored: Rec<T>)
      requires Valid()
      modifies this
      ensures Valid()
      ensures stored == rec
      ensures records == Upserted(old(records), rec)
    {
      UpsertedKeepsUnique(records, rec);
      records := Upserted(records, rec);
      stored := rec;
    }

    /** remove(collection, record): deletes the record with its id; nothing happens when there is none. */
    method Remove(rec: Rec<T>)
      requires Valid()
      modifies this
      ensures Valid()
      ensures records == Removed(old(records), rec.id)
    {
      RemovedKeepsUnique(records, rec.id);
      records := Removed(records, rec.id);
    }
  }
}
