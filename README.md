# todostar core in Dafny

This project models the core of todostar, a small todo-list web application.
It has three parts:

- **The todo store** (`domain/domain.go`; modules `Domain`, `TodoQuery`, `Text`,
  `Strconv`). The store keeps its records in two places: an insertion-ordered
  slice and an id lookup map. Both point at the same shared `*Todo` records.
  It also keeps a full-text index of each record's title, description and
  archive flag. The operations are `Add`, `Search`, `Edit`, `Archive` and
  `Delete`. `Search` takes one of two paths:
  - blank text: a structural listing in insertion order;
  - otherwise: a bleve query, built by `buildBleveQuery`, that the index
    answers with document keys. The keys are parsed back into ids and then
    filtered by archive flag.
- **The topic broadcaster** (`pkg/broadcast/broadcast.go`; module `Broadcast`).
  It is a registry of callbacks, keyed first by event topic and then by
  subscription id. The operations are `Subscribe`, `Subscription.Close` and
  `Notify`.
- **The time formatting helpers** (`pkg/timefmt/timefmt.go`; module `TimeFmt`).
  These are `Due`, `Dur` and `DateTimeStr`.

How the Go types are modelled:

- **Records.** `Todo` and `Store` are classes, because the Go code updates
  them in place. Callers see a record's later changes.
- **The index.** The bleve index is a class that holds a map from document key
  to indexed fields. Indexing and deleting may fail; that is modelled as
  nondeterministic choice (`if *`). Searching is an oracle: it returns at most
  `size` keys, and the model does not relate those keys to the query or to the
  indexed documents. The store parses each key back into an id and looks it
  up, and that part is modelled exactly.
- **The query.** The query that `buildBleveQuery` builds is an abstract
  syntax tree.
- **Text.** Strings are byte sequences, and lengths are byte counts, as in Go.
- **Time.** A `time.Duration` is an integer number of nanoseconds. A
  `time.Time` is an integer number of nanoseconds since Go's zero time.

The store is proved against an invariant, `Domain.Store.Valid`:

- ids in the slice strictly increase, so they are unique and in insertion
  order;
- every id lies between 1 and the id counter;
- the lookup map holds exactly the slice's records, each under its own id.

Every store method keeps `Valid` and states its whole new state, including the
index contents. The error cases are distinguished:

- validation failure;
- unknown id;
- failure inside the `mutate` callback;
- index failure;
- search failure.

The contracts make two behaviours of the code explicit:

- `Archive` reindexes the record with the fields it had before the call, and
  only then sets its archive flag. So archiving a record that was not archived
  leaves its index entry saying "not archived"; archiving it again writes
  "archived". Whether bleve still finds such a record is outside the model.
  With bleve's matching, a text search for archived records should still
  return it, because that query has no archive filter and the store filters
  the hits by the live record's flag. This is not proved here.
- `Edit` passes on an error from the callback without rolling back. The record
  is left as the callback left it, even if it is no longer valid.

The broadcaster is specified through `Broadcast.Listeners`, the set of
subscriptions a `Notify` of an event type reaches. `Subscribe` adds exactly its
own new id to that set. `Close` removes exactly its own id and leaves other
topics unchanged. `Notify` dispatches once to each member of the set.

## Model

| member | source | states |
|---|---|---|
| Domain.Validate | domain/domain.go:91-97 | each flag of the validation error holds exactly when its check fails: empty title, title over 1024 bytes, description over 16384 bytes |
| Domain.ValidateRejectsIllFormed | domain/domain.go:91-103 | `IsErr` holds exactly when the title is not 1 to 1024 bytes or the description is over 16384 bytes |
| Domain.ErrorValidation.IsErr | domain/domain.go:99-103 | a validation result is an error exactly when at least one of its flags is set |
| Domain.Key | domain/domain.go:126 | the index key of a record is its id in decimal (`strconv.FormatInt(id, 10)`, also at lines 301, 316 and 340); it is never empty, and every 64-bit id parses back from it |
| Domain.Todo.constructor | domain/domain.go:117-124 | the new record holds exactly the given fields |
| Domain.Todo.Assign | domain/domain.go:297 | after `*todo = original` the record holds exactly the given value, and its id is unchanged |
| Domain.SearchIndex.constructor | domain/domain.go:25-51 | a fresh in-memory index holds no documents |
| Domain.SearchIndex.Index | domain/domain.go:126-133 | on success, the document under the key is replaced by the new fields; on failure, the index is unchanged |
| Domain.SearchIndex.Delete | domain/domain.go:340 | on success, the key's document is removed; on failure, the index is unchanged |
| Domain.SearchIndex.Search | domain/domain.go:170-172 | returns at most `req.Size` hits |
| Domain.Store.constructor | domain/domain.go:18-23 | `New` yields an empty, valid store with an empty index |
| Domain.Store.Add | domain/domain.go:107-138 | invalid input: `(0, validation error)` and nothing changes. Otherwise the counter advances by one. Index failure: `(0, error)`, and the record is not stored. Success: the id is the new counter value, one fresh open, unarchived record with the given fields is appended and put in the lookup map, and the index holds its fields under the decimal key. The store stays valid |
| Domain.Store.Insert | domain/domain.go:135-136 | appends the record and maps its id to it, keeping the store invariant |
| Domain.Store.FindById | domain/domain.go:140-146 | finds a record exactly when the id is in the lookup map, and then it is that record; in a valid store, the found record has that id and is in the slice, and nothing is found exactly when no stored record has the id |
| Domain.Store.Search | domain/domain.go:153-197 | blank text: no error, and the result is the structural listing. Otherwise the query sent to the index is `buildBleveQuery` of the filters, never the match-all or filter-only query; the index is asked for at most as many hits as there are records; if it fails, the result is empty with a search error. If it succeeds, the result is the hits resolved through the lookup map. Every result is a stored record with the requested archive flag |
| Domain.Store.ListTodos | domain/domain.go:157-166 | the loop over `todos` computes the structural listing |
| Domain.Store.IdMap | domain/domain.go:177-180 | the rebuilt `byID` map has exactly the keys and entries of `indexByID` |
| Domain.ResolveHits | domain/domain.go:182-195 | the hit loop computes `Resolve` of the hits |
| Domain.Listing | domain/domain.go:157-166 | the result holds exactly the records whose archive flag matches, all from the store |
| Domain.ListingKeepsOrder | domain/domain.go:159-164 | over records with increasing ids, the listing also has increasing ids, so it keeps insertion order |
| Domain.Resolve | domain/domain.go:182-195 | at most one record per hit; every result is the record that some hit parses to, taken from `byID` and with the requested archive flag, so hits that do not parse or name no record add nothing |
| Domain.ResolveAppend | domain/domain.go:182-195 | results keep hit order: resolving two runs of hits one after the other gives the results of the first run, then those of the second |
| Domain.ResolveSameEntries | domain/domain.go:177-195 | resolving through two maps with the same entries gives the same result |
| Domain.ResolveFindsHit | domain/domain.go:182-195 | every hit that parses to a stored id, canonical or not (a leading `+` or zeros), yields that record when its archive flag matches |
| Domain.ResolveFindsKey | domain/domain.go:182-195 | a hit carrying a record's decimal key yields that record when its archive flag matches |
| Domain.RemoveId | domain/domain.go:338 | `DeleteFunc` by id keeps exactly the records with another id, all from the input |
| Domain.RemoveIdAt | domain/domain.go:338 | with unique ids, removing by id removes only the one position and keeps the order of the rest |
| Domain.RemoveKeepsIndex | domain/domain.go:338-339 | dropping a record from the slice and its id from the map keeps ids increasing and the map matching the slice |
| Domain.Store.Edit | domain/domain.go:280-306 | unknown id: not-exists. A callback error is passed on, with the record left as the callback left it. An edit that fails validation returns the validation error, and the record is restored. Otherwise the record is the edited one and is reindexed under its key, or an index error is returned with the index unchanged. Slice, map and counter do not change. The store stays valid |
| Domain.Store.Archive | domain/domain.go:308-326 | unknown id: not-exists. On success, the index holds the record's fields as they were before the call, and then the record is marked archived. On index failure, the record and the index are unchanged. The store stays valid |
| Domain.Store.Delete | domain/domain.go:328-341 | unknown id: not-exists, and nothing changes. Otherwise the record (still held by callers) is marked archived, removed from the slice by id and from the map, and its key is removed from the index; on index failure, the index is unchanged but the removal stands. The store stays valid |
| TodoQuery.LongTerms | domain/domain.go:245-248 | the selected terms are longer than three bytes and come from the query |
| TodoQuery.LongTermsComplete | domain/domain.go:245-248 | every query term longer than three bytes is selected |
| TodoQuery.LongTermsAppend | domain/domain.go:245-248 | selection keeps query order: the long terms of two runs of terms are those of the first run, then those of the second |
| TodoQuery.TermClauses | domain/domain.go:230-243 | per term, in order: a title match with boost 3.0, then a description match with boost 1.0 |
| TodoQuery.FuzzyClauses | domain/domain.go:245-260 | per long term, in order: a title fuzzy match (fuzziness 1, boost 0.5), then a description fuzzy match (fuzziness 1, boost 0.3) |
| TodoQuery.PhraseClauses | domain/domain.go:216-228 | two phrase matches of the same phrase, on the title and then the description, with the title's boost five times the description's; that the phrase is the joined terms and the boosts are 10.0 and 2.0 is stated by TodoQuery.ContentClausesShape |
| TodoQuery.ContentClauses | domain/domain.go:262-268 | the content disjunction has 2 + 2·terms + 2·long-terms clauses |
| TodoQuery.ContentClausesShape | domain/domain.go:216-268 | the clauses one by one: the title phrase (boost 10.0) and the description phrase (boost 2.0) of the joined terms, then the term matches, then the fuzzy matches |
| TodoQuery.BuildQuery | domain/domain.go:199-276 | no terms: match-all, or a conjunction of the not-archived filter alone. With terms: the content disjunction, conjoined with the not-archived filter exactly when archived records are not requested |
| TodoQuery.BuildQueryClauses | domain/domain.go:216-275 | the built query with terms, clause by clause, with the archive filter as the second conjunct exactly when unarchived records are requested |
| TodoQuery.FuzzyClausesAreLong | domain/domain.go:245-260 | every fuzzy clause is for a query term longer than three bytes, with fuzziness 1 |
| TodoQuery.PhraseHasQueryTerms | domain/domain.go:200-228 | the phrase of both phrase clauses, `Join(terms, " ")`, splits back into exactly the query's terms |
| TodoQuery.SearchedQueriesHaveContent | domain/domain.go:157-214 | text that is not blank after trimming has terms, so `Search` never sends the match-all or filter-only query to the index |
| Text.TrimLeft | domain/domain.go:157 | a suffix of the input; what was dropped is white space; the result does not start with white space |
| Text.TrimRight | domain/domain.go:157 | a prefix of the input; what was dropped is white space; the result does not end with white space |
| Text.TrimSpace | domain/domain.go:157 | the result is no longer than the input, neither starts nor ends with white space, and is empty exactly when the input is all white space |
| Text.TrimSpaceSlice | domain/domain.go:157 | the result is a slice of the input with only white space on either side of it |
| Text.Fields | domain/domain.go:200 | every field is non-empty and holds no white space. Together with FieldsTrimLeft, FieldsWordThenRun, FieldsOfWord and BlankIffNoFields (no fields exactly when the trimmed text is empty, which by TrimSpace means all white space), this fixes the fields of every input |
| Text.FieldsTrimLeft | domain/domain.go:200 | leading white space does not change the fields |
| Text.FieldsWordThenRun | domain/domain.go:200 | a word followed by a run of white space is the first field, and the fields after it are those of what follows the run |
| Text.FieldsOfWord | domain/domain.go:200 | a non-empty word without white space is its own only field |
| Text.TrimLeftSpaceRun | domain/domain.go:157 | leading white space is skipped whatever follows it, and does not change the fields |
| Text.BlankIffNoFields | domain/domain.go:200-209 | the trimmed text is empty exactly when it has no fields |
| Text.FieldsOfTrimSpace | domain/domain.go:200 | splitting the trimmed text gives the same fields as splitting the text |
| Text.Join | domain/domain.go:218 | the joined phrase is empty for no terms; otherwise it starts with the first term, followed by a space when there are more terms, and ends with the last term |
| Text.FieldsOfJoin | domain/domain.go:218 | joining non-empty, space-free words with single spaces and splitting again gives back the words |
| Text.FieldsOfJoinedFields | domain/domain.go:200-218 | the fields of the joined fields are the fields |
| Strconv.FormatInt | domain/domain.go:126 | the decimal key of an id is never empty |
| Strconv.ParseInt | domain/domain.go:183-186 | a parsed id lies in the signed 64-bit range |
| Strconv.FormatParseRoundTrip | domain/domain.go:183 | every 64-bit id parses back from its decimal index key |
| Strconv.FormatIntInjective | domain/domain.go:126 | distinct 64-bit ids have distinct index keys |
| Broadcast.MatchingIn | pkg/broadcast/broadcast.go:82-88 | the ids among the given keys whose callback takes the event type |
| Broadcast.Listeners | pkg/broadcast/broadcast.go:79-89 | exactly the ids under the event's topic whose callback takes the event type |
| Broadcast.SubscribedKeepsNoEmptyTopics | pkg/broadcast/broadcast.go:67-70 | subscribing never leaves a topic with an empty map |
| Broadcast.ClosedKeepsNoEmptyTopics | pkg/broadcast/broadcast.go:43-48 | closing never leaves a topic with an empty map |
| Broadcast.SubscribedTouchesOnlyItsTopic | pkg/broadcast/broadcast.go:65-70 | other topics are unchanged; the new callback is stored under its topic and id beside the ids already there |
| Broadcast.ClosedTouchesOnlyItsTopic | pkg/broadcast/broadcast.go:40-48 | other topics are unchanged; the own topic loses only the id, and is dropped only when nothing is left |
| Broadcast.CloseOtherTopic | pkg/broadcast/broadcast.go:43-48 | closing a subscription does not change who is notified on another topic |
| Broadcast.CloseIdempotent | pkg/broadcast/broadcast.go:43-48 | closing the same subscription twice is the same as closing it once |
| Broadcast.SubscribeOneMore | pkg/broadcast/broadcast.go:59-72 | a fresh subscription adds exactly its id to the listeners of its event type |
| Broadcast.CloseOneFewer | pkg/broadcast/broadcast.go:36-48 | closing a listener removes exactly its id from the listeners, so `Notify` reaches one fewer subscriber |
| Broadcast.MatchingStep | pkg/broadcast/broadcast.go:82-87 | visiting one subscription removes it from the pending matches exactly when its callback takes the event type |
| Broadcast.TopicBroadcaster.constructor | pkg/broadcast/broadcast.go:23-27 | a new broadcaster has no topics |
| Broadcast.TopicBroadcaster.SubscribeCallback | pkg/broadcast/broadcast.go:59-72 | the counter advances by one; the subscription's id is the new value, above every stored id; the callback is stored under its topic and id, creating the topic when absent; the registry stays valid |
| Broadcast.TopicBroadcaster.Subscribe | pkg/broadcast/broadcast.go:55-57 | as `subscribe` with a callback of the event type; the listeners of that type gain exactly the new id |
| Broadcast.TopicBroadcaster.Close | pkg/broadcast/broadcast.go:36-48 | the id is removed from its topic, and an emptied topic is removed; the registry stays valid |
| Broadcast.TopicBroadcaster.Notify | pkg/broadcast/broadcast.go:75-91 | the returned count is the number of listeners; the dispatched ids are exactly the listeners, each once |
| TimeFmt.TruncDiv | pkg/timefmt/timefmt.go:26 | Go's integer conversion rounds toward zero: the remainder has the dividend's sign and is smaller than the divisor |
| TimeFmt.Dur | pkg/timefmt/timefmt.go:24-36 | seconds exactly below a minute, minutes below an hour, hours below a day, days otherwise; the value is the duration truncated to whole units |
| TimeFmt.DurRanges | pkg/timefmt/timefmt.go:24-36 | a non-negative duration prints 0-59 seconds, 1-59 minutes, 1-23 hours, or at least one day |
| TimeFmt.DurString | pkg/timefmt/timefmt.go:26-35 | the decimal value followed by the unit letter |
| TimeFmt.Due | pkg/timefmt/timefmt.go:10-22 | with d the distance from now to due: "due in a moment" exactly when 0 < d < 1m; "due now" exactly when -60s < d < 0; overdue exactly when d ≤ -60s, showing `Dur(-d)`; otherwise "due in", showing `Dur(d)` |
| TimeFmt.OverdueNeverInSeconds | pkg/timefmt/timefmt.go:16-19 | an overdue date shows at least one minute, never seconds |
| TimeFmt.DueInSecondsOnlyAtNow | pkg/timefmt/timefmt.go:12-21 | "due in" shows seconds only when the due date is exactly now, as "0s" |
| TimeFmt.DueAtNow | pkg/timefmt/timefmt.go:10-22 | a due date equal to now reads "due in 0s" |
| TimeFmt.DueString | pkg/timefmt/timefmt.go:13-21 | every text but the overdue one starts with "due", the overdue text starts with "Over due by ", and a text that shows a span ends with the printed span |
| TimeFmt.DateTimeStr | pkg/timefmt/timefmt.go:38-43 | the result is empty exactly for the zero time; otherwise it is the formatted instant |
| Domain.StoreScenario | domain/domain_test.go:14-67 | the store test: a new store lists nothing; when the first `Add` succeeds its id is 1 and the open listing is exactly the new record with the given fields |
| Domain.AddScenario | domain/domain_test.go:20-36 | the first `Add` of the test gets id 1 and is listed with exactly its fields |
| Domain.ListEmpty | domain/domain_test.go:17-18 | the open listing of an empty store is empty |
| Domain.ListSingle | domain/domain_test.go:26-36 | the open listing of a store holding one open record is exactly that record |
| Domain.EditScenario | domain/domain_test.go:38-54 | marking the record done changes its status and nothing else, and it stays listed |
| Domain.ArchiveDeleteScenario | domain/domain_test.go:56-66 | after a successful archive the open listing is empty; after delete the store and the archived listing are empty |
| Domain.EditMissingScenario | domain/domain_test.go:91-99 | editing in an empty store reports not-exists |
| Broadcast.SubUnsubScenario | pkg/broadcast/broadcast_test.go:21-56 | a `TestEvent2` reaches nobody, a `TestEvent1` is dispatched exactly twice, once to each of the two subscriptions' distinct ids, and after both close nobody is reached |
| Broadcast.UnsubScenario | pkg/broadcast/broadcast_test.go:49-53 | closing both subscribers leaves nobody on either topic to notify |

## Left out

- Mutexes and atomics: each store and broadcaster operation is one atomic step. Concurrent callers are not modelled.
- Id counters: both are package-global `atomic.Int64` in Go. Here each is a field of its store or broadcaster, so two instances do not share ids.
- 64-bit wrap-around: the counters and `-d` in `Due` are unbounded integers. Wrap-around after 2^63 steps, or at the minimum duration, is not modelled.
- `context.Context` parameters: these are unused by the code and are omitted.
- Subscription ids are naturals here, where Go uses `int64`. The counter starts at 0 and only increases, so they are positive in both.
- Go generics: an event type `T` is an abstract name with a fixed topic (`EventType`). Go's type switch `case func(T)` becomes a comparison of the callback's parameter type with the event type.
- `Broadcast.TopicBroadcaster.Notify`: callbacks are not run. The `go c(event)` goroutines become a list of the dispatched subscription ids, and the order of Go's map iteration is an arbitrary choice.
- `Subscription.Close`: the closing of a channel subscriber (pkg/broadcast/broadcast.go:49-51) is not modelled. Channels are never subscribed through the exported `Subscribe`.
- `Domain.SearchIndex.Search`: bleve's analysis, matching and scoring are not modelled. The hits are arbitrary keys, at most `size` of them, so the contract says nothing about which records a text query finds or in what order.
- `Domain.SearchIndex.Index` and `Domain.SearchIndex.Delete`: why the index fails is not modelled; failure is a nondeterministic outcome. A failing call is assumed to leave the index unchanged.
- `mustMakeBleveIndex`: the field mappings and the English analyser are not modelled. Its panic on failure is not modelled.
- `Domain.Store.Edit`: requires the callback to keep the record's id. Go checks this only after a callback that succeeds, and panics otherwise, so the model excludes the panic. A failing callback that changes the id is also excluded. Go would return that error without a check, and the lookup map would then no longer match the slice.
- `Domain.Store.Edit`: the callback is a function from the record's value to the new value and the error. Callbacks that capture and change other state are not covered.
- `Text.TrimSpace` and `Text.Fields`: only ASCII white space is recognised (tab, line feed, vertical tab, form feed, carriage return, space). Go also treats U+0085, U+00A0 and other Unicode spaces as white space.
- `TimeFmt.Dur`: `d.Seconds()` and its siblings are floats in Go. The model uses exact integer division. The two can differ for very large durations, where float64 rounding carries the fraction into the next whole unit.
- Time: `time.Time` is a nanosecond count with no location or monotonic reading. `due.Sub(now)` does not saturate at the `Duration` bounds here.
- `TimeFmt.DateTimeStr`: the layout `2006-01-02T15:04` and `time.Format` are not modelled. The format is a parameter that never yields an empty string.
- `TimeFmt.DueString`: its contract states the fixed prefixes and the printed span at the end, not the whole text; the whole text is its body, with `%d` printed as `FormatInt`.
- Outside this model: the HTTP server, templates, middleware, the event definitions and the user interface. The rest of the repository is also left out.
