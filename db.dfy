/** The question store: an IndexedDB database with a `questions` object store
    keyed by `id` and a `settings` object store keyed by `key` (db.js). */
module QuizDb {
  import opened Seqs

  /** One quiz question, as stored and as loaded from the question bank. */
  datatype Question = Question(
    id: int,
    category: string,
    question: string,
    correctAnswer: string,
    incorrectAnswers: seq<string>)

  /** The set of primary keys a batch of records carries. */
  ghost function Ids(batch: seq<Question>): set<int>
  {
    set q | q in batch :: q.id
  }

  // ---------------------------------------------------------------------------
  // Schema: the object stores of the database, by name, with their key paths
  // ---------------------------------------------------------------------------

  /** The schema after the upgrade step: the stores that were there, unchanged,
      plus `questions` (key path `id`) and `settings` (key path `key`) when missing. */
  function Upgraded(stores: map<string, string>): (r: map<string, string>)
    ensures r.Keys == stores.Keys + {"questions", "settings"}
    ensures forall name :: name in stores ==> r[name] == stores[name]
    ensures "questions" !in stores ==> r["questions"] == "id"
    ensures "settings" !in stores ==> r["settings"] == "key"
  {
    map name | name in stores.Keys + {"questions", "settings"} ::
      if name in stores then stores[name]
      else if name == "questions" then "id"
      else "key"
  }

  /** Running the upgrade a second time changes nothing. */
  lemma UpgradedIdempotent(stores: map<string, string>)
    ensures Upgraded(Upgraded(stores)) == Upgraded(stores)
  {
  }

  // ---------------------------------------------------------------------------
  // Records: insert-or-replace by primary key
  // ---------------------------------------------------------------------------

  /** The records after `put` of every element of `batch`, in order: each put
      stores its record under its `id`, replacing whatever was there. */
  function PutAll(m: map<int, Question>, batch: seq<Question>): (r: map<int, Question>)
    ensures r.Keys == m.Keys + Ids(batch)
    ensures forall k :: k in m && k !in Ids(batch) ==> r[k] == m[k]
    decreases |batch|
  {
    if |batch| == 0 then m
    else
      var last := batch[|batch| - 1];
      assert batch == batch[..|batch| - 1] + [last];
      PutAll(m, batch[..|batch| - 1])[last.id := last]
  }

  /** Putting one more record extends the fold by one step. */
  lemma PutAllSnoc(m: map<int, Question>, batch: seq<Question>, q: Question)
    ensures PutAll(m, batch + [q]) == PutAll(m, batch)[q.id := q]
  {
    assert (batch + [q])[..|batch|] == batch;
  }

  /** `batch[i]` is the last record of the batch with primary key `k`. */
  ghost predicate LastWithKey(batch: seq<Question>, k: int, i: int)
  {
    0 <= i < |batch| && batch[i].id == k && forall j :: i < j < |batch| ==> batch[j].id != k
  }

  /** Last write wins: a key the batch carries ends up holding the last record
      of the batch with that key. */
  lemma {:induction false} PutAllLastWriteWins(m: map<int, Question>, batch: seq<Question>, k: int)
    requires k in Ids(batch)
    ensures k in PutAll(m, batch)
    ensures exists i :: LastWithKey(batch, k, i) && PutAll(m, batch)[k] == batch[i]
    decreases |batch|
  {
    var n := |batch| - 1;
    var front := batch[..n];
    assert batch == front + [batch[n]];
    assert PutAll(m, batch) == PutAll(m, front)[batch[n].id := batch[n]];
    if batch[n].id != k {
      assert k in Ids(front) by {
        var q :| q in batch && q.id == k;
        assert q in front;
      }
      PutAllLastWriteWins(m, front, k);
      var i :| LastWithKey(front, k, i) && PutAll(m, front)[k] == front[i];
      assert LastWithKey(batch, k, i) by {
        forall j | i < j < |batch| ensures batch[j].id != k {
          if j < n {
            assert batch[j] == front[j];
          }
        }
      }
      assert PutAll(m, batch)[k] == batch[i];
    } else {
      assert LastWithKey(batch, k, n);
    }
  }

  /** What a key the batch carries ends up holding does not depend on the
      records stored before. */
  lemma {:induction false} PutAllOverwrites(m1: map<int, Question>, m2: map<int, Question>, batch: seq<Question>, k: int)
    requires k in Ids(batch)
    ensures k in PutAll(m1, batch) && k in PutAll(m2, batch)
    ensures PutAll(m1, batch)[k] == PutAll(m2, batch)[k]
    decreases |batch|
  {
    var n := |batch| - 1;
    var front := batch[..n];
    assert batch == front + [batch[n]];
    if batch[n].id != k {
      assert k in Ids(front) by {
        var q :| q in batch && q.id == k;
        assert q in front;
      }
      PutAllOverwrites(m1, m2, front, k);
    }
  }

  /** Storing the same batch twice leaves the same records as storing it once. */
  lemma PutAllIdempotent(m: map<int, Question>, batch: seq<Question>)
    ensures PutAll(PutAll(m, batch), batch) == PutAll(m, batch)
  {
    var once := PutAll(m, batch);
    var twice := PutAll(once, batch);
    forall k | k in twice
      ensures twice[k] == once[k]
    {
      if k in Ids(batch) {
        PutAllOverwrites(once, m, batch, k);
      }
    }
  }

  /** Categories filter: the records whose category is one of `categories`,
      in the order given. */
  function ByCategory(all: seq<Question>, categories: seq<string>): (r: seq<Question>)
    ensures forall q :: q in r <==> q in all && q.category in categories
  {
    Filter(all, (q: Question) => q.category in categories)
  }

  /** The keys increase strictly from front to back. */
  ghost predicate StrictlyIncreasing(ks: seq<int>)
  {
    forall i, j :: 0 <= i < j < |ks| ==> ks[i] < ks[j]
  }

  /** Every key after the first is larger than the first. */
  lemma AboveFirst(ks: seq<int>)
    requires StrictlyIncreasing(ks) && |ks| > 0
    ensures forall x :: x in ks[1..] ==> ks[0] < x
  {
    forall x | x in ks[1..] ensures ks[0] < x {
      var i :| 0 <= i < |ks[1..]| && ks[1..][i] == x;
      assert ks[i + 1] == x;
    }
  }

  /** A key smaller than all of an increasing sequence can go in front. */
  lemma ConsKey(x: int, ks: seq<int>)
    requires StrictlyIncreasing(ks)
    requires forall y :: y in ks ==> x < y
    ensures StrictlyIncreasing([x] + ks)
  {
    forall i, j | 0 <= i < j < |[x] + ks|
      ensures ([x] + ks)[i] < ([x] + ks)[j]
    {
      assert ([x] + ks)[j] == ks[j - 1];
      assert ks[j - 1] in ks;
      if i > 0 {
        assert ([x] + ks)[i] == ks[i - 1];
      }
    }
  }

  /** The primary keys of a sequence of records, in order. */
  ghost function KeysOf(qs: seq<Question>): seq<int>
  {
    seq(|qs|, i requires 0 <= i < |qs| => qs[i].id)
  }

  /** The ids of a sequence of records increase strictly from front to back. */
  ghost predicate IdsIncreasing(qs: seq<Question>)
  {
    StrictlyIncreasing(KeysOf(qs))
  }

  /** Dropping the first record keeps the ids increasing. */
  lemma IdsIncreasingTail(qs: seq<Question>)
    requires IdsIncreasing(qs) && |qs| > 0
    ensures IdsIncreasing(qs[1..])
  {
    assert KeysOf(qs[1..]) == KeysOf(qs)[1..];
  }

  /** A record with a smaller id than all of an increasing sequence can go in front. */
  lemma ConsIncreasing(x: Question, rest: seq<Question>)
    requires IdsIncreasing(rest)
    requires forall q :: q in rest ==> x.id < q.id
    ensures IdsIncreasing([x] + rest)
  {
    var ks := KeysOf(rest);
    forall y | y in ks ensures x.id < y {
      var i :| 0 <= i < |ks| && ks[i] == y;
      assert rest[i] in rest;
    }
    ConsKey(x.id, ks);
    assert KeysOf([x] + rest) == [x.id] + ks;
  }

  /** In an increasing sequence, the first record has a smaller id than every
      later one. */
  lemma FirstBelowTail(qs: seq<Question>)
    requires IdsIncreasing(qs) && |qs| > 0
    ensures forall q :: q in qs[1..] ==> qs[0].id < q.id
  {
    var ks := KeysOf(qs);
    AboveFirst(ks);
    forall q | q in qs[1..] ensures qs[0].id < q.id {
      var i :| 0 <= i < |qs[1..]| && qs[1..][i] == q;
      assert ks[0] == qs[0].id && ks[1..][i] == q.id;
      assert ks[1..][i] in ks[1..];
    }
  }

  /** The filter keeps the store's order: strictly increasing ids stay so. */
  lemma {:induction false} ByCategoryKeepsOrder(all: seq<Question>, categories: seq<string>)
    requires IdsIncreasing(all)
    ensures IdsIncreasing(ByCategory(all, categories))
  {
    if |all| > 0 {
      var rest := ByCategory(all[1..], categories);
      IdsIncreasingTail(all);
      ByCategoryKeepsOrder(all[1..], categories);
      if all[0].category in categories {
        assert ByCategory(all, categories) == [all[0]] + rest;
        FirstBelowTail(all);
        ConsIncreasing(all[0], rest);
      } else {
        assert ByCategory(all, categories) == rest;
      }
    }
  }

  /** Records with strictly increasing ids are all different: each occurs at
      most once. */
  lemma {:induction false} IdsIncreasingDistinct(qs: seq<Question>)
    requires IdsIncreasing(qs)
    ensures forall q :: multiset(qs)[q] <= 1
  {
    if |qs| > 0 {
      var rest := qs[1..];
      IdsIncreasingTail(qs);
      IdsIncreasingDistinct(rest);
      FirstBelowTail(qs);
      assert qs[0] !in rest;
      assert qs == [qs[0]] + rest;
      forall q ensures multiset(qs)[q] <= 1 {
        assert multiset(qs)[q] == multiset([qs[0]])[q] + multiset(rest)[q];
      }
    }
  }

  // ---------------------------------------------------------------------------
  // The `questions` object store
  // ---------------------------------------------------------------------------

  /** `ks` with `k` inserted at its place in ascending order (no change when
      already present). */
  function InsertKey(ks: seq<int>, k: int): (r: seq<int>)
    requires StrictlyIncreasing(ks)
    ensures StrictlyIncreasing(r)
    ensures forall x :: x in r <==> x in ks || x == k
  {
    if |ks| == 0 then [k]
    else
      AboveFirst(ks);
      assert ks == [ks[0]] + ks[1..];
      if k < ks[0] then
        ConsKey(k, ks);
        [k] + ks
      else if k == ks[0] then ks
      else
        var rest := InsertKey(ks[1..], k);
        ConsKey(ks[0], rest);
        [ks[0]] + rest
  }

  /** Two strictly increasing sequences with the same elements are equal:
      the key order of a store is fixed by its set of keys. */
  lemma {:induction false} IncreasingUnique(a: seq<int>, b: seq<int>)
    requires StrictlyIncreasing(a) && StrictlyIncreasing(b)
    requires forall x :: x in a <==> x in b
    ensures a == b
  {
    assert |a| > 0 ==> a[0] in a && a[0] in b;
    assert |b| > 0 ==> b[0] in b && b[0] in a;
    if |a| > 0 && |b| > 0 {
      assert a[0] == b[0];
      assert forall x :: x in a[1..] <==> x in a && x != a[0];
      assert forall x :: x in b[1..] <==> x in b && x != b[0];
      IncreasingUnique(a[1..], b[1..]);
      assert a == [a[0]] + a[1..] && b == [b[0]] + b[1..];
    }
  }

  /** A strictly increasing sequence has no repeated key: as many distinct keys as entries. */
  lemma {:induction false} IncreasingCardinality(ks: seq<int>)
    requires StrictlyIncreasing(ks)
    ensures |(set x | x in ks)| == |ks|
  {
    if |ks| > 0 {
      IncreasingCardinality(ks[1..]);
      assert (set x | x in ks) == {ks[0]} + (set x | x in ks[1..]);
      assert ks[0] !in (set x | x in ks[1..]);
    }
  }

  /** `ks` lists, in ascending order and once each, exactly the keys of `m`,
      and every record sits under its own `id`. */
  ghost predicate WellKeyed(m: map<int, Question>, ks: seq<int>)
  {
    && StrictlyIncreasing(ks)
    && (forall k :: k in m <==> k in ks)
    && (forall i :: 0 <= i < |ks| ==> ks[i] in m)
    && (forall k :: k in m ==> m[k].id == k)
  }

  /** The records of `m` under the keys `ks`, in that order. */
  function Rows(m: map<int, Question>, ks: seq<int>): seq<Question>
    requires forall i :: 0 <= i < |ks| ==> ks[i] in m
  {
    seq(|ks|, i requires 0 <= i < |ks| => m[ks[i]])
  }

  /** One row per stored record. */
  lemma RowsCount(m: map<int, Question>, ks: seq<int>)
    requires WellKeyed(m, ks)
    ensures |Rows(m, ks)| == |m|
  {
    IncreasingCardinality(ks);
    assert forall x :: x in m.Keys <==> x in (set y | y in ks);
    assert m.Keys == set y | y in ks;
  }

  /** The rows are exactly the stored records. */
  lemma RowsMembers(m: map<int, Question>, ks: seq<int>)
    requires WellKeyed(m, ks)
    ensures forall q :: q in Rows(m, ks) <==> q.id in m && m[q.id] == q
  {
    var r := Rows(m, ks);
    forall q: Question | q in r ensures q.id in m && m[q.id] == q {
      var i :| 0 <= i < |r| && r[i] == q;
      assert ks[i] in ks;
    }
    forall q: Question | q.id in m && m[q.id] == q ensures q in r {
      var i :| 0 <= i < |ks| && ks[i] == q.id;
      assert r[i] == q;
    }
  }

  /** The rows come in ascending key order. */
  lemma RowsOrdered(m: map<int, Question>, ks: seq<int>)
    requires WellKeyed(m, ks)
    ensures IdsIncreasing(Rows(m, ks))
  {
    var r := Rows(m, ks);
    forall i | 0 <= i < |ks| ensures KeysOf(r)[i] == ks[i] {
      assert r[i] == m[ks[i]];
    }
    assert KeysOf(r) == ks;
  }

  /** An IndexedDB object store with key path `id`: the records by primary key,
      and the keys in ascending order, which is the order `getAll` reports them in. */
  class ObjectStore {
    var records: map<int, Question>
    var keys: seq<int>

    ghost predicate Valid()
      reads this
    {
      WellKeyed(records, keys)
    }

    constructor ()
      ensures Valid() && records == map[] && keys == []
    {
      records := map[];
      keys := [];
    }

    /** `put(q)` with no-overwrite false: store `q` under its `id`, replacing the
        record with that key if there is one (section 6.1 of the W3C Indexed
        Database API 3.0, "store a record into an object store"). */
    method Put(q: Question)
      requires Valid()
      modifies this
      ensures Valid()
      ensures records == old(records)[q.id := q]
      ensures keys == InsertKey(old(keys), q.id)
    {
      records := records[q.id := q];
      keys := InsertKey(keys, q.id);
    }

    /** `getAll()`: every record, once each, in ascending key order. */
    function GetAll(): (r: seq<Question>)
      reads this
      requires Valid()
      ensures |r| == |records|
      ensures forall q :: q in r <==> q.id in records && records[q.id] == q
      ensures IdsIncreasing(r)
    {
      RowsCount(records, keys);
      RowsMembers(records, keys);
      RowsOrdered(records, keys);
      Rows(records, keys)
    }
  }

  /** Two valid stores holding the same records list them identically. */
  lemma SameRecordsSameRows(a: ObjectStore, b: ObjectStore)
    requires a.Valid() && b.Valid() && a.records == b.records
    ensures a.keys == b.keys && a.GetAll() == b.GetAll()
  {
    IncreasingUnique(a.keys, b.keys);
  }

  // ---------------------------------------------------------------------------
  // The database
  // ---------------------------------------------------------------------------

  /** The opened database: its schema (store name to key path) and the
      contents of its `questions` store. */
  class QuizDB {
    var objectStores: map<string, string>
    /** The `questions` object store. It holds no record until the upgrade
        step has created it (db.js:21 creates it empty). */
    const questions: ObjectStore

    ghost predicate Valid()
      reads this, questions
    {
      && questions.Valid()
      && ("questions" !in objectStores ==> questions.records == map[])
    }

    /** A database that does not exist yet: no object stores, no records. */
    constructor ()
      ensures Valid() && objectStores == map[]
      ensures fresh(questions) && questions.records == map[]
    {
      objectStores := map[];
      questions := new ObjectStore();
    }

    /** `onupgradeneeded`: create each of the two stores only when it is
        missing. A `questions` store created here is empty; one that was
        already there keeps its records. */
    method Init()
      requires Valid()
      modifies this
      ensures Valid()
      ensures objectStores == Upgraded(old(objectStores))
      ensures "questions" !in old(objectStores) ==> questions.records == map[]
      ensures questions.records == old(questions.records) && questions.keys == old(questions.keys)
    {
      if "questions" !in objectStores {
        objectStores := objectStores["questions" := "id"];
      }
      if "settings" !in objectStores {
        objectStores := objectStores["settings" := "key"];
      }
    }

    /** `storeQuestions`: one `put` per record, in batch order. */
    method StoreQuestions(batch: seq<Question>)
      requires Valid() && "questions" in objectStores
      modifies questions
      ensures Valid()
      ensures questions.records == PutAll(old(questions.records), batch)
    {
      for i := 0 to |batch|
        invariant questions.Valid()
        invariant questions.records == PutAll(old(questions.records), batch[..i])
      {
        assert batch[..i + 1] == batch[..i] + [batch[i]];
        PutAllSnoc(old(questions.records), batch[..i], batch[i]);
        questions.Put(batch[i]);
      }
      assert batch[..|batch|] == batch;
    }

    /** `getQuestionsByCategory`: the `getAll` listing filtered by category. */
    function GetQuestionsByCategory(categories: seq<string>): (r: seq<Question>)
      reads this, questions
      requires Valid() && "questions" in objectStores
      ensures |r| <= |questions.records|
    {
      FilterLength(questions.GetAll(), (q: Question) => q.category in categories);
      ByCategory(questions.GetAll(), categories)
    }

    /** The query returns exactly the stored records whose category is listed,
        with no extras and no omissions, in store order. */
    lemma QueryExact(categories: seq<string>)
      requires Valid() && "questions" in objectStores
      ensures forall q :: q in GetQuestionsByCategory(categories)
                <==> q.id in questions.records && questions.records[q.id] == q && q.category in categories
      ensures IdsIncreasing(GetQuestionsByCategory(categories))
    {
      ByCategoryKeepsOrder(questions.GetAll(), categories);
    }

    /** Selecting every category that occurs in the store returns the whole
        store, in store order. */
    lemma AllCategoriesReturnAll(categories: seq<string>)
      requires Valid() && "questions" in objectStores
      requires forall k :: k in questions.records ==> questions.records[k].category in categories
      ensures GetQuestionsByCategory(categories) == questions.GetAll()
    {
      FilterKeepsAll(questions.GetAll(), (q: Question) => q.category in categories);
    }

    /** No match is not a failure: the result is then the empty sequence, and
        it is empty only then. */
    lemma EmptyWhenNoneMatches(categories: seq<string>)
      requires Valid() && "questions" in objectStores
      ensures GetQuestionsByCategory(categories) == []
              <==> forall k :: k in questions.records ==> questions.records[k].category !in categories
    {
      FilterEmpty(questions.GetAll(), (q: Question) => q.category in categories);
    }
  }
}
