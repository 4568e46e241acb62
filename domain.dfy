/** The in-memory todo store of domain/domain.go: an ordered collection of
    records, an id lookup map over the same records, and a search index
    derived from them. Each operation is one atomic step (the store's mutex is
    not modelled). */
module Domain {
  import opened Wrappers
  import opened Text
  import opened Strconv
  import opened TodoQuery
  import opened Seqs

  const TitleMaxLength: int := 1024
  const DescriptionMaxLength: int := 16 * 1024

  datatype Status = Open | Done

  /** Which of the three input checks failed. */
  datatype ErrorValidation = ErrorValidation(titleEmpty: bool, titleTooLong: bool, descriptionTooLong: bool)
  {
    /** An error exactly when at least one check failed. */
    function IsErr(): (b: bool)
      ensures b <==> this != ErrorValidation(false, false, false)
    {
      titleEmpty || titleTooLong || descriptionTooLong
    }
  }

  /** `Validate`: one flag per check, computed on byte lengths. */
  function Validate(title: Bytes, description: Bytes): (v: ErrorValidation)
    ensures v.titleEmpty <==> title == []
    ensures v.titleTooLong <==> |title| > TitleMaxLength
    ensures v.descriptionTooLong <==> |description| > DescriptionMaxLength
  {
    ErrorValidation(title == [], |title| > TitleMaxLength, |description| > DescriptionMaxLength)
  }

  /** The record constraints of the store: a non-empty title of at most 1 KiB
      and a description of at most 16 KiB. */
  predicate WellFormed(title: Bytes, description: Bytes) {
    1 <= |title| <= TitleMaxLength && |description| <= DescriptionMaxLength
  }

  /** `Validate(...).IsErr()` rejects exactly the inputs that are not well formed. */
  lemma ValidateRejectsIllFormed(title: Bytes, description: Bytes)
    ensures Validate(title, description).IsErr() <==> !WellFormed(title, description)
  {
  }

  /** A record's contents: the fields of a Go `Todo`. `created` and `due` are
      opaque instants. */
  datatype Record = Record(
    id: int, title: Bytes, description: Bytes, status: Status,
    archived: bool, created: int, due: int)

  /** The fields that are indexed for a record. */
  datatype IndexDoc = IndexDoc(title: Bytes, description: Bytes, archived: bool)

  function DocOf(r: Record): IndexDoc {
    IndexDoc(r.title, r.description, r.archived)
  }

  /** What a caller's `mutate` callback does to the record it is handed: the
      record as it leaves it, and the error it returns, if any. */
  datatype Mutation = Mutation(record: Record, err: Option<Bytes>)

  datatype StoreError =
    | NotExists                          // ErrNotExists
    | Invalid(validation: ErrorValidation)
    | IndexFailure                       // the index failed to index or delete
    | SearchFailure                      // "searching index: ..."
    | MutateFailed(reason: Bytes)        // returned by `mutate`, passed on as is

  /** The index key of a record: its id in decimal, from which every 64-bit
      id parses back. */
  function Key(id: int): (k: Bytes)
    ensures k != []
    ensures MinInt64 <= id <= MaxInt64 ==> ParseInt(k) == Some(id)
  {
    assert MinInt64 <= id <= MaxInt64 ==> ParseInt(FormatInt(id)) == Some(id) by {
      if MinInt64 <= id <= MaxInt64 {
        FormatParseRoundTrip(id);
      }
    }
    FormatInt(id)
  }

  /** A `*Todo`: the store and its callers share the same records. The id is
      fixed when the record is created: the store never changes it and
      panics if an edit callback does. */
  class Todo {
    const id: int
    var title: Bytes
    var description: Bytes
    var status: Status
    var archived: bool
    var created: int
    var due: int

    constructor (r: Record)
      ensures Value() == r
    {
      id := r.id;
      title, description, status := r.title, r.description, r.status;
      archived, created, due := r.archived, r.created, r.due;
    }

    function Value(): Record
      reads this
    {
      Record(id, title, description, status, archived, created, due)
    }

    /** `*todo = r`, for a record value with the same id. */
    method Assign(r: Record)
      requires r.id == id
      modifies this
      ensures Value() == r
    {
      title, description, status := r.title, r.description, r.status;
      archived, created, due := r.archived, r.created, r.due;
    }
  }

  /** The bleve index seen from the store: a map from document key to the
      indexed fields. Indexing and deleting may fail for reasons the store
      cannot see; searching is an oracle that returns at most `size` keys. */
  class SearchIndex {
    var docs: map<Bytes, IndexDoc>

    constructor ()
      ensures docs == map[]
    {
      docs := map[];
    }

    /** Upserts `doc` under `key`, unless the index reports a failure. */
    method Index(key: Bytes, doc: IndexDoc) returns (ok: bool)
      modifies this
      ensures ok ==> docs == old(docs)[key := doc]
      ensures !ok ==> docs == old(docs)
    {
      if * {
        docs := docs[key := doc];
        ok := true;
      } else {
        ok := false;
      }
    }

    /** Removes the document under `key`, unless the index reports a failure. */
    method Delete(key: Bytes) returns (ok: bool)
      modifies this
      ensures ok ==> docs == old(docs) - {key}
      ensures !ok ==> docs == old(docs)
    {
      if * {
        docs := docs - {key};
        ok := true;
      } else {
        ok := false;
      }
    }

    /** Runs `q` with result size `size`: the hit keys are not interpreted. */
    method Search(q: Query, size: nat) returns (hits: seq<Bytes>, ok: bool)
      ensures |hits| <= size
    {
      hits :| |hits| <= size;
      ok :| true;
    }
  }

  /** The structural listing: the records of `ts` whose archive flag is
      `archived`, in the order of `ts`. */
  function Listing(ts: seq<Todo>, archived: bool): (r: seq<Todo>)
    reads ts
    ensures forall t :: t in r ==> t in ts && t.archived == archived
    ensures forall i :: 0 <= i < |ts| && ts[i].archived == archived ==> ts[i] in r
    decreases |ts|
  {
    if ts == [] then []
    else
      var prev := Listing(ts[..|ts| - 1], archived);
      var last := ts[|ts| - 1];
      if last.archived == archived then prev + [last] else prev
  }

  predicate IdsIncreasing(ts: seq<Todo>) {
    forall i, j :: 0 <= i < j < |ts| ==> ts[i].id < ts[j].id
  }

  /** Listing keeps insertion order: over records with increasing ids its
      result has increasing ids. */
  lemma {:induction false} ListingKeepsOrder(ts: seq<Todo>, archived: bool)
    requires IdsIncreasing(ts)
    ensures IdsIncreasing(Listing(ts, archived))
    decreases |ts|
  {
    if ts != [] {
      var init := ts[..|ts| - 1];
      ListingKeepsOrder(init, archived);
      var prev := Listing(init, archived);
      var last := ts[|ts| - 1];
      forall t | t in prev ensures t.id < last.id {
        var i :| 0 <= i < |init| && init[i] == t;
      }
    }
  }

  /** The text-search listing: each hit that parses as an id of a record in
      `byID` whose archive flag is `archived` yields that record, in hit
      order; all other hits are skipped. */
  function Resolve(hits: seq<Bytes>, byID: map<int, Todo>, archived: bool): (r: seq<Todo>)
    reads byID.Values
    ensures |r| <= |hits|
    ensures forall t :: t in r ==> t.archived == archived && exists k :: k in byID && byID[k] == t
    ensures forall t :: t in r ==>
              exists i :: 0 <= i < |hits| && ParseInt(hits[i]).Some? &&
                          ParseInt(hits[i]).value in byID && byID[ParseInt(hits[i]).value] == t
    decreases |hits|
  {
    if hits == [] then []
    else
      var prev := Resolve(hits[..|hits| - 1], byID, archived);
      match ParseInt(hits[|hits| - 1])
      case None => prev
      case Some(n) =>
        if n in byID && byID[n].archived == archived then prev + [byID[n]] else prev
  }

  /** Results keep hit order: the records of earlier hits come first. */
  lemma {:induction false} ResolveAppend(a: seq<Bytes>, b: seq<Bytes>, byID: map<int, Todo>, archived: bool)
    ensures Resolve(a + b, byID, archived) == Resolve(a, byID, archived) + Resolve(b, byID, archived)
    decreases |b|
  {
    if b == [] {
      assert a + b == a;
    } else {
      AppendInit(a, b);
      ResolveAppend(a, b[..|b| - 1], byID, archived);
    }
  }

  /** `Resolve` looks at `byID` only through membership and lookup. */
  lemma {:induction false} ResolveSameEntries(hits: seq<Bytes>, a: map<int, Todo>, b: map<int, Todo>, archived: bool)
    requires forall k :: k in a <==> k in b
    requires forall k :: k in a ==> a[k] == b[k]
    ensures Resolve(hits, a, archived) == Resolve(hits, b, archived)
    decreases |hits|
  {
    if hits != [] {
      ResolveSameEntries(hits[..|hits| - 1], a, b, archived);
    }
  }

  /** Any hit that parses to a stored id (the canonical key, or a variant such
      as a leading `+` or zeros that `strconv.ParseInt` also accepts) resolves
      to that record when its archive flag matches. */
  lemma {:induction false} ResolveFindsHit(hits: seq<Bytes>, byID: map<int, Todo>, archived: bool, i: nat, id: int)
    requires i < |hits| && ParseInt(hits[i]) == Some(id)
    requires id in byID && byID[id].archived == archived
    ensures byID[id] in Resolve(hits, byID, archived)
    decreases |hits|
  {
    if i < |hits| - 1 {
      var init := hits[..|hits| - 1];
      assert init[i] == hits[i];
      ResolveFindsHit(init, byID, archived, i, id);
    }
  }

  /** In particular, a hit carrying a record's key resolves to that record. */
  lemma ResolveFindsKey(hits: seq<Bytes>, byID: map<int, Todo>, archived: bool, id: int)
    requires MinInt64 <= id <= MaxInt64
    requires Key(id) in hits && id in byID && byID[id].archived == archived
    ensures byID[id] in Resolve(hits, byID, archived)
  {
    var i :| 0 <= i < |hits| && hits[i] == Key(id);
    ResolveFindsHit(hits, byID, archived, i, id);
  }

  /** `slices.DeleteFunc(ts, func(t) bool { return t.ID == id })`. */
  function RemoveId(ts: seq<Todo>, id: int): (r: seq<Todo>)
    ensures forall t :: t in r ==> t in ts && t.id != id
    ensures forall i :: 0 <= i < |ts| && ts[i].id != id ==> ts[i] in r
    decreases |ts|
  {
    if ts == [] then []
    else
      var prev := RemoveId(ts[..|ts| - 1], id);
      var last := ts[|ts| - 1];
      if last.id == id then prev else prev + [last]
  }

  /** With ids unique, removing the record at position `p` by id leaves the
      others in their relative order. */
  lemma {:induction false} RemoveIdAt(ts: seq<Todo>, id: int, p: nat)
    requires p < |ts| && ts[p].id == id
    requires forall q :: 0 <= q < |ts| && q != p ==> ts[q].id != id
    ensures RemoveId(ts, id) == ts[..p] + ts[p + 1..]
    decreases |ts|
  {
    var init := ts[..|ts| - 1];
    if p == |ts| - 1 {
      RemoveIdKeeps(init, id);
      RemoveLast(ts);
    } else {
      RemoveIdAt(init, id, p);
      RemoveAtInit(ts, p);
    }
  }

  lemma {:induction false} RemoveIdKeeps(ts: seq<Todo>, id: int)
    requires forall q :: 0 <= q < |ts| ==> ts[q].id != id
    ensures RemoveId(ts, id) == ts
    decreases |ts|
  {
    if ts != [] {
      RemoveIdKeeps(ts[..|ts| - 1], id);
      InitLast(ts);
    }
  }

  /** `m` maps the id of every record of `ts` to that record, and nothing else. */
  predicate IndexMatches(ts: seq<Todo>, m: map<int, Todo>) {
    && (forall i :: 0 <= i < |ts| ==> ts[i].id in m && m[ts[i].id] == ts[i])
    && (forall k :: k in m ==> m[k] in ts && m[k].id == k)
  }

  /** Dropping the record at position `p` from a store with increasing ids,
      and its id from the lookup map, keeps ids increasing and the lookup map
      in step. */
  lemma RemoveKeepsIndex(ts: seq<Todo>, m: map<int, Todo>, p: nat)
    requires IdsIncreasing(ts) && IndexMatches(ts, m) && p < |ts|
    ensures var rs := ts[..p] + ts[p + 1..];
            && IdsIncreasing(rs)
            && IndexMatches(rs, m - {ts[p].id})
            && (forall i :: 0 <= i < |rs| ==> rs[i] in ts)
  {
    var rs := ts[..p] + ts[p + 1..];
    var id := ts[p].id;
    var m' := m - {id};
    assert forall i :: 0 <= i < |rs| ==> rs[i] == ts[if i < p then i else i + 1];
    forall i | 0 <= i < |rs| ensures rs[i].id in m' && m'[rs[i].id] == rs[i] {
      var q := if i < p then i else i + 1;
      assert rs[i] == ts[q] && q != p;
      assert ts[q].id != id;
    }
    forall k | k in m' ensures m'[k] in rs && m'[k].id == k {
      var q :| 0 <= q < |ts| && ts[q] == m[k];
      assert q != p;
      if q < p {
        assert rs[q] == m[k];
      } else {
        assert rs[q - 1] == m[k];
      }
    }
  }

  class Store {
    var todos: seq<Todo>
    var indexByID: map<int, Todo>
    const searchIndex: SearchIndex
    var idCounter: int

    /** The store invariant: ids in `todos` strictly increase (so they are
        unique and in insertion order), lie in 1..idCounter, and are exactly
        the keys of `indexByID`, which maps each id to its record. */
    ghost predicate Valid()
      reads this
    {
      && 0 <= idCounter
      && IdsIncreasing(todos)
      && (forall i :: 0 <= i < |todos| ==> 0 < todos[i].id <= idCounter)
      && IndexMatches(todos, indexByID)
    }

    /** `New`. */
    constructor ()
      ensures Valid() && fresh(searchIndex)
      ensures todos == [] && indexByID == map[] && idCounter == 0 && searchIndex.docs == map[]
    {
      todos, indexByID, idCounter := [], map[], 0;
      searchIndex := new SearchIndex();
    }

    /** `Add`. */
    method Add(title: Bytes, description: Bytes, now: int, due: int) returns (id: int, err: Option<StoreError>)
      requires Valid()
      modifies this, searchIndex
      ensures Valid()
      ensures Validate(title, description).IsErr() ==>
                && id == 0 && err == Some(Invalid(Validate(title, description)))
                && todos == old(todos) && indexByID == old(indexByID) && idCounter == old(idCounter)
                && searchIndex.docs == old(searchIndex.docs)
      ensures !Validate(title, description).IsErr() ==> idCounter == old(idCounter) + 1
      ensures !Validate(title, description).IsErr() && err.Some? ==>
                && id == 0 && err == Some(IndexFailure)
                && todos == old(todos) && indexByID == old(indexByID)
                && searchIndex.docs == old(searchIndex.docs)
      ensures err.None? ==>
                var rec := Record(id, title, description, Open, false, now, due);
                && id == old(idCounter) + 1
                && |todos| == |old(todos)| + 1 && todos[..|old(todos)|] == old(todos)
                && fresh(todos[|todos| - 1]) && todos[|todos| - 1].Value() == rec
                && indexByID == old(indexByID)[id := todos[|todos| - 1]]
                && searchIndex.docs == old(searchIndex.docs)[Key(id) := DocOf(rec)]
    {
      var v := Validate(title, description);
      if v.IsErr() {
        return 0, Some(Invalid(v));
      }
      idCounter := idCounter + 1;
      var newID := idCounter;
      var t := new Todo(Record(newID, title, description, Open, false, now, due));
      var ok := searchIndex.Index(Key(newID), IndexDoc(t.title, t.description, t.archived));
      if !ok {
        // Roll back in case of index failure: the counter stays advanced.
        return 0, Some(IndexFailure);
      }
      Insert(t);
      return newID, None;
    }

    /** `s.todos = append(s.todos, t); s.indexByID[t.ID] = t` for a record
        whose id is above every stored id. */
    method Insert(t: Todo)
      requires Valid()
      requires 0 < t.id <= idCounter
      requires forall i :: 0 <= i < |todos| ==> todos[i].id < t.id
      modifies this
      ensures Valid()
      ensures todos == old(todos) + [t] && indexByID == old(indexByID)[t.id := t]
      ensures idCounter == old(idCounter)
    {
      todos := todos + [t];
      indexByID := indexByID[t.id := t];
    }

    /** `findByID`. */
    function FindById(id: int): (r: Option<Todo>)
      reads this
      ensures r.Some? <==> id in indexByID
      ensures r.Some? ==> r.value == indexByID[id]
      ensures Valid() && r.Some? ==> r.value.id == id && r.value in todos
      ensures Valid() ==> (r.None? <==> forall i :: 0 <= i < |todos| ==> todos[i].id != id)
    {
      if id in indexByID then Some(indexByID[id]) else None
    }

    /** `Search`. The ghost `query` and `hits` are the query sent to the index
        and the keys it returned on the text path. */
    method Search(filters: SearchFilters)
      returns (res: seq<Todo>, err: Option<StoreError>, ghost query: Query, ghost hits: seq<Bytes>)
      requires Valid()
      ensures TrimSpace(filters.textMatch) == [] ==> err.None? && res == Listing(todos, filters.archived)
      ensures TrimSpace(filters.textMatch) != [] ==>
                && |hits| <= |todos|
                && (err.None? ==> res == Resolve(hits, indexByID, filters.archived))
                && (err.Some? ==> err == Some(SearchFailure) && res == [])
      ensures TrimSpace(filters.textMatch) != [] ==>
                && query == BuildQuery(filters)
                && query != MatchAll && query != Conjunction([NotArchived])
      ensures forall t :: t in res ==> t in todos && t.archived == filters.archived
    {
      hits, query := [], MatchAll;
      if TrimSpace(filters.textMatch) == [] {
        // Fast search with simple filters.
        res := ListTodos(filters.archived);
        return res, None, query, hits;
      }

      // Slow search by text match.
      var q := BuildQuery(filters);
      SearchedQueriesHaveContent(filters);
      query := q;
      var found, ok := searchIndex.Search(q, |todos|);
      hits := found;
      if !ok {
        return [], Some(SearchFailure), query, hits;
      }

      var byID := IdMap();
      res := ResolveHits(found, byID, filters.archived);
      ResolveSameEntries(found, byID, indexByID, filters.archived);
      forall t | t in res ensures t in todos {
        var k :| k in indexByID && indexByID[k] == t;
      }
      return res, None, query, hits;
    }
  
    /** The fast path of `Search`: one pass over `todos` in insertion order. */
    method ListTodos(archived: bool) returns (res: seq<Todo>)
      ensures res == Listing(todos, archived)
    {
      res := [];
      var i := 0;
      while i < |todos|
        invariant 0 <= i <= |todos|
        invariant res == Listing(todos[..i], archived)
      {
        var t := todos[i];
        assert todos[..i + 1][..i] == todos[..i];
        if !((!archived && t.archived) || (archived && !t.archived)) {
          res := res + [t];
        }
        i := i + 1;
      }
      assert todos[..|todos|] == todos;
    }

    /** The `byID` map that `Search` rebuilds from `todos`: it has the entries
        of `indexByID`. */
    method IdMap() returns (byID: map<int, Todo>)
      requires Valid()
      ensures forall k :: k in byID <==> k in indexByID
      ensures forall k :: k in byID ==> byID[k] == indexByID[k]
    {
      byID := map[];
      var i := 0;
      while i < |todos|
        invariant 0 <= i <= |todos|
        invariant forall j :: 0 <= j < i ==> todos[j].id in byID && byID[todos[j].id] == todos[j]
        invariant forall k :: k in byID ==> k in indexByID && byID[k] == indexByID[k]
      {
        var t := todos[i];
        assert t.id in indexByID && indexByID[t.id] == t;
        byID := byID[t.id := t];
        i := i + 1;
      }
      forall k | k in indexByID ensures k in byID && byID[k] == indexByID[k] {
        var t := indexByID[k];
        assert t in todos && t.id == k;
        var j :| 0 <= j < |todos| && todos[j] == t;
        assert todos[j].id in byID && byID[todos[j].id] == todos[j];
      }
    }

    /** `Edit`: `mutate` is applied to the record in place. Its error is passed
        on with the record left as `mutate` left it; an edit that fails
        validation is rolled back; otherwise the record is reindexed. */
    method Edit(id: int, mutate: Record -> Mutation) returns (err: Option<StoreError>)
      requires Valid()
      requires id in indexByID ==> mutate(indexByID[id].Value()).record.id == id
      modifies (if id in indexByID then {indexByID[id]} else {}), searchIndex
      ensures Valid()
      ensures todos == old(todos) && indexByID == old(indexByID) && idCounter == old(idCounter)
      ensures id !in indexByID ==> err == Some(NotExists) && searchIndex.docs == old(searchIndex.docs)
      ensures id in indexByID ==>
                var t := indexByID[id];
                var m := mutate(old(t.Value()));
                var v := Validate(m.record.title, m.record.description);
                && (m.err.Some? ==>
                      err == Some(MutateFailed(m.err.value)) && t.Value() == m.record
                      && searchIndex.docs == old(searchIndex.docs))
                && (m.err.None? && v.IsErr() ==>
                      err == Some(Invalid(v)) && t.Value() == old(t.Value())
                      && searchIndex.docs == old(searchIndex.docs))
                && (m.err.None? && !v.IsErr() ==>
                      && t.Value() == m.record
                      && (err.None? ==> searchIndex.docs == old(searchIndex.docs)[Key(id) := DocOf(m.record)])
                      && (err.Some? ==> err == Some(IndexFailure) && searchIndex.docs == old(searchIndex.docs)))
    {
      var found := FindById(id);
      if found.None? {
        return Some(NotExists);
      }
      var todo := found.value;
      var original := todo.Value();
      var m := mutate(original);
      todo.Assign(m.record);
      if m.err.Some? {
        return Some(MutateFailed(m.err.value));
      }
      var v := Validate(todo.title, todo.description);
      if v.IsErr() {
        // Rollback
        todo.Assign(original);
        return Some(Invalid(v));
      }
      var ok := searchIndex.Index(Key(id), IndexDoc(todo.title, todo.description, todo.archived));
      err := if ok then None else Some(IndexFailure);
    }

    /** `Archive`: the record is reindexed with its fields as they are before
        the call, and only then marked archived; a failing index leaves it as
        it was. */
    method Archive(id: int) returns (err: Option<StoreError>)
      requires Valid()
      modifies (if id in indexByID then {indexByID[id]} else {}), searchIndex
      ensures Valid()
      ensures todos == old(todos) && indexByID == old(indexByID) && idCounter == old(idCounter)
      ensures id !in indexByID ==> err == Some(NotExists) && searchIndex.docs == old(searchIndex.docs)
      ensures id in indexByID ==>
                var t := indexByID[id];
                && (err.None? ==>
                      && searchIndex.docs == old(searchIndex.docs)[Key(id) := DocOf(old(t.Value()))]
                      && t.Value() == old(t.Value()).(archived := true))
                && (err.Some? ==>
                      && err == Some(IndexFailure) && t.Value() == old(t.Value())
                      && searchIndex.docs == old(searchIndex.docs))
    {
      var found := FindById(id);
      if found.None? {
        return Some(NotExists);
      }
      var todo := found.value;
      var ok := searchIndex.Index(Key(id), IndexDoc(todo.title, todo.description, todo.archived));
      if !ok {
        return Some(IndexFailure);
      }
      todo.archived := true;
      return None;
    }

    /** `Delete`: the record is marked archived (callers holding it see the
        flag), dropped from the list and the lookup map, and then removed from
        the index; a failing index removal is reported but not rolled back. */
    method Delete(id: int) returns (err: Option<StoreError>)
      requires Valid()
      modifies this, (if id in indexByID then {indexByID[id]} else {}), searchIndex
      ensures Valid()
      ensures idCounter == old(idCounter)
      ensures id !in old(indexByID) ==>
                && err == Some(NotExists)
                && todos == old(todos) && indexByID == old(indexByID)
                && searchIndex.docs == old(searchIndex.docs)
      ensures id in old(indexByID) ==>
                var t := old(indexByID[id]);
                && t.Value() == old(t.Value()).(archived := true)
                && todos == RemoveId(old(todos), id)
                && indexByID == old(indexByID) - {id}
                && (err.None? ==> searchIndex.docs == old(searchIndex.docs) - {Key(id)})
                && (err.Some? ==> err == Some(IndexFailure) && searchIndex.docs == old(searchIndex.docs))
    {
      var found := FindById(id);
      if found.None? {
        return Some(NotExists);
      }
      var todo := found.value;
      todo.archived := true;
      ghost var p :| 0 <= p < |todos| && todos[p] == todo;
      RemoveIdAt(todos, id, p);
      RemoveKeepsIndex(todos, indexByID, p);
      todos := RemoveId(todos, id);
      indexByID := indexByID - {id};
      var ok := searchIndex.Delete(Key(id));
      err := if ok then None else Some(IndexFailure);
    }
  }

  /** The hit loop of `Search`: hits that do not parse, or do not name a
      record, or name one with the other archive flag, are skipped. */
  method ResolveHits(hits: seq<Bytes>, byID: map<int, Todo>, archived: bool) returns (res: seq<Todo>)
    ensures res == Resolve(hits, byID, archived)
  {
    res := [];
    var h := 0;
    while h < |hits|
      invariant 0 <= h <= |hits|
      invariant res == Resolve(hits[..h], byID, archived)
    {
      assert hits[..h + 1][..h] == hits[..h];
      var parsed := ParseInt(hits[h]);
      if parsed.Some? {
        var id64 := parsed.value;
        if id64 in byID {
          var t := byID[id64];
          if !((!archived && t.archived) || (archived && !t.archived)) {
            res := res + [t];
          }
        }
      }
      h := h + 1;
    }
    assert hits[..|hits|] == hits;
  }

  /** The add, list, edit, archive, delete sequence of the package's own store
      test: a new store lists nothing, and the first record added gets id 1
      and is listed with exactly the given fields. The index may fail at each
      step, so each expectation is stated for the run in which the step before
      it succeeded. */
  method StoreScenario(now: int)
    returns (initial: seq<Todo>, addErr: Option<StoreError>, id: int, listed: seq<Record>)
    ensures initial == []
    ensures addErr.None? ==>
              && id == 1
              && listed == [Record(1, Ascii("New Todo"), Ascii("some description"), Open, false,
                                   now, now + 3_600_000_000_000)]
  {
    var s := new Store();
    initial := ListEmpty(s);
    addErr, id, listed := AddScenario(s, now);
  }

  /** The open listing of an empty store is empty. */
  method ListEmpty(s: Store) returns (listed: seq<Todo>)
    requires s.Valid() && s.todos == []
    ensures listed == []
  {
    var err;
    ghost var query, hits;
    var blank: Bytes := [];
    assert TrimSpace(blank) == [] by { assert TrimLeft(blank) == []; }
    listed, err, query, hits := s.Search(SearchFilters(false, blank));
  }

  /** The first `Add` to a new store, and the steps that follow it. */
  method AddScenario(s: Store, now: int) returns (addErr: Option<StoreError>, id: int, listed: seq<Record>)
    requires s.Valid() && s.todos == [] && s.indexByID == map[] && s.idCounter == 0
    modifies s, s.searchIndex
    ensures addErr.None? ==>
              && id == 1
              && listed == [Record(1, Ascii("New Todo"), Ascii("some description"), Open, false,
                                   now, now + 3_600_000_000_000)]
  {
    var title, description := Ascii("New Todo"), Ascii("some description");
    var due := now + 3_600_000_000_000;
    id, addErr := s.Add(title, description, now, due);
    listed := [];
    if addErr.None? {
      var t := s.todos[0];
      assert t.Value() == Record(1, title, description, Open, false, now, due);
      var open := ListSingle(s, t);
      listed := [open[0].Value()];
      var editErr, afterEdit := EditScenario(s, t);
      var archiveErr, afterArchive, deleteErr, afterDelete := ArchiveDeleteScenario(s, t);
    }
  }

  /** The open listing of a store holding one open record is that record. */
  method ListSingle(s: Store, t: Todo) returns (listed: seq<Todo>)
    requires s.Valid() && s.todos == [t] && !t.archived
    ensures listed == [t]
  {
    var err;
    ghost var query, hits;
    var blank: Bytes := [];
    assert TrimSpace(blank) == [] by { assert TrimLeft(blank) == []; }
    listed, err, query, hits := s.Search(SearchFilters(false, blank));
    assert Listing([t], false) == [t] by { assert [t][..0] == []; }
  }

  /** Marking the one open record done keeps it listed, with the new status
      and every other field unchanged. */
  method EditScenario(s: Store, t: Todo) returns (editErr: Option<StoreError>, listed: seq<Todo>)
    requires s.Valid() && s.todos == [t] && s.indexByID == map[1 := t]
    requires t.id == 1 && !t.archived && !Validate(t.title, t.description).IsErr()
    modifies s, s.searchIndex, t
    ensures s.Valid() && s.todos == [t] && s.indexByID == map[1 := t]
    ensures editErr.None? || editErr == Some(IndexFailure)
    ensures t.Value() == old(t.Value()).(status := Done)
    ensures listed == [t]
  {
    editErr := s.Edit(1, (r: Record) => Mutation(r.(status := Done), None));
    listed := ListSingle(s, t);
  }

  /** Archiving hides the record from the open listing; deleting it leaves the
      archived listing empty too. */
  method ArchiveDeleteScenario(s: Store, t: Todo)
    returns (archiveErr: Option<StoreError>, openAfterArchive: seq<Todo>,
             deleteErr: Option<StoreError>, archivedAfterDelete: seq<Todo>)
    requires s.Valid() && s.todos == [t] && s.indexByID == map[1 := t] && t.id == 1
    modifies s, s.searchIndex, t
    ensures archiveErr.None? ==> openAfterArchive == []
    ensures deleteErr.None? || deleteErr == Some(IndexFailure)
    ensures s.todos == [] && s.indexByID == map[] && t.archived && archivedAfterDelete == []
  {
    archiveErr := s.Archive(1);
    var err;
    ghost var query, hits;
    var blank: Bytes := [];
    assert TrimSpace(blank) == [] by { assert TrimLeft(blank) == []; }
    openAfterArchive, err, query, hits := s.Search(SearchFilters(false, blank));
    deleteErr := s.Delete(1);
    assert s.todos == [];
    archivedAfterDelete, err, query, hits := s.Search(SearchFilters(true, blank));
  }

  /** Editing a record of an empty store reports that it does not exist. */
  method EditMissingScenario() returns (err: Option<StoreError>)
    ensures err == Some(NotExists)
  {
    var s := new Store();
    err := s.Edit(1, (r: Record) => Mutation(r.(status := Done), None));
  }
}
