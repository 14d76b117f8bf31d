# Distributed-databases exercises: a verified model of their core logic

This project models the deterministic core of a set of database exercises, and proves properties of that model.

**Concurrency harness (task-1).** Four worker loops increment one shared PostgreSQL row, `user_counter(user_id = 1, counter, version)`. Each uses a different strategy:
- an unlocked read followed by a write (lost update);
- an atomic `counter = counter + 1 ... RETURNING` (in-place update);
- `SELECT ... FOR UPDATE` (row-level locking);
- a version-checked compare-and-swap with retry (optimistic concurrency control).

The model has three layers:
- the row and its SQL statements, as functions on a row value and as the `Store` class;
- each worker loop run alone, as a method on the `Store`;
- interleavings of many worker processes, as a program counter per worker and a schedule of scheduler choices.

What is proved:
- the in-place and locking workers end at `p * n` when no statement raised;
- the optimistic workers end at `p * n` whatever statements raised, as long as no rollback raised as well (a worker whose rollback raises leaves its loop early);
- the optimistic worker keeps `version == counter + 1`;
- the lost-update worker never exceeds `p * n`, and one schedule is shown in which it loses an update.

**Cassandra cluster helpers (task-7).** Modelled:
- the ordered, duplicate-free host and node lists;
- the replica placement of the nodetool emulation's `getendpoints` command, which walks the node ring from `abs(int(token)) % n`;
- the report of the `getendpoints` function, a sorted prefix of the node names;
- the index check of `connect_to_specific_node`.

**Data generator (task-8).** Modelled:
- how `generate_data_generator` splits `num_docs` into batches;
- how a news text grows and is cut to `MAX_TEXT_LENGTH`;
- how the url path is built from the title.

**Product and order helpers (task-5).** Every query result is an input sequence of rows. The model covers:
- the first-match lookups and the property filters;
- the property-map edits, and the UPDATE statement each one issues;
- the maximum order and the empty-sum default;
- the INSERT statement with its optional TTL;
- the JSON export and import of an order, with the round trip between them.

Modules:
- `Wrappers`: `Option` and `Result`.
- `Text`: Python's `str.split()`, `'-'.join`, `split('-')`, `lower()` on ASCII letters, and `int()`/`str()` on integers.
- `Uuids`: `str(uuid)` and `uuid.UUID(s)`.
- `Rows`: the first-match loop and the order-preserving filter.
- `CounterStore`, `Strategies` and `Workers`: task-1.
- `NodeLists`, `Replicas` and `Endpoints`: task-7.
- `GenerateData`: task-8.
- `Products` and `Orders`: task-5.

Inputs instead of effects:
- Connections, clocks, `uuid.uuid4()`, Faker and `random` draws, and driver query results are parameters.
- A statement the source executes is returned as a value: the UPDATE's parameters, or the INSERT's query text and parameters.

## Model

| member | source | states |
|---|---|---|
| CounterStore.Upsert | task-1/utils.py:24-29 | the bootstrap upsert leaves the row present with counter 0 and version 1 |
| CounterStore.UpsertResets | task-1/utils.py:25-28 | the upsert resets any existing row: the result does not depend on whether the row existed or what it held |
| CounterStore.Select | task-1/4_optimistic_concurrency_control.py:19-22 | the plain read returns (counter, version) exactly when the row exists, and `None` otherwise |
| CounterStore.SelectForUpdate | task-1/3_row_level_locking.py:20-23 | the locking read waits exactly when another transaction holds the lock; with the lock free it returns nothing for a missing row, otherwise the counter |
| CounterStore.AfterSelectForUpdate | task-1/3_row_level_locking.py:20 | the locking read changes no column and takes the lock exactly when it read a row |
| CounterStore.WriteCounter | task-1/1_lost_update.py:26 | the counter UPDATE sets the counter of an existing row and touches neither the version nor the lock |
| CounterStore.Increment | task-1/2_in_place_update.py:18 | the in-place UPDATE raises the counter of an existing row by exactly one and leaves the version alone |
| CounterStore.CompareAndSwap | task-1/4_optimistic_concurrency_control.py:27-32 | the version-checked UPDATE sets counter and version when the stored version is the expected one, and otherwise changes nothing |
| CounterStore.Release | task-1/3_row_level_locking.py:27 | commit, rollback or close frees the row lock held by that transaction and changes no column |
| CounterStore.Store.EnsureRowExists | task-1/utils.py:19-32 | `ensure_row_exists` applies the upsert in place; a failing statement is swallowed and leaves the row unchanged |
| CounterStore.Store.ReadCounter | task-1/1_lost_update.py:17-18 | the plain read on the store is `Select` of its state and changes nothing |
| CounterStore.Store.ReadForUpdate | task-1/3_row_level_locking.py:20-21 | the locking read on the store returns `SelectForUpdate` and leaves `AfterSelectForUpdate` |
| CounterStore.Store.Write | task-1/1_lost_update.py:26 | the counter write on the store leaves `WriteCounter` of the old state |
| CounterStore.Store.IncrementReturning | task-1/2_in_place_update.py:18-19 | the increment on the store returns the post-increment counter, or `None` for a missing row |
| CounterStore.Store.Swap | task-1/4_optimistic_concurrency_control.py:27-32 | the swap reports `rowcount > 0` exactly when it applied, and leaves `CompareAndSwap` of the old state |
| CounterStore.Store.EndTransaction | task-1/4_optimistic_concurrency_control.py:43 | ending the transaction leaves `Release` of the old state |
| Strategies.Raised | task-1/4_optimistic_concurrency_control.py:41-45 | a raising statement commits nothing and frees the worker's lock; only OCC with a rollback that succeeds retries the iteration, every other worker ends |
| Strategies.FetchStep | task-1/2_in_place_update.py:17-21 | an iteration's first statement never changes the version; only the in-place increment commits, logging the counter one above the old one |
| Strategies.WriteStep | task-1/3_row_level_locking.py:23-26 | a write that commits logs the value it writes and ends the iteration; one that does not changes nothing; an OCC commit found the expected version and bumped it by one |
| Strategies.WorkerStep | task-1/1_lost_update.py:17-27 | one step commits at most once and the worker's commit count rises by exactly what it logged; a raising statement commits nothing; a finished worker does not move |
| Strategies.Step | task-1/1_lost_update.py:46-52 | one scheduler choice moves only the chosen worker and only appends to the commit log |
| Strategies.Run | task-1/1_lost_update.py:46-52 | an interleaving keeps the set of workers and only appends to the commit log |
| Strategies.LostUpdateRunInv | task-1/1_lost_update.py:16-27 | in every interleaving of lost-update workers, the counter never exceeds its start plus the committed writes, and the version is never written |
| Strategies.LostUpdateBound | task-1/1_lost_update.py:16-27 | from the bootstrapped row, the counter is at most the number of committed writes, which is at most `p * n`; each worker writes at most `n` times; the version stays 1 |
| Strategies.LostUpdateRace | task-1/1_lost_update.py:17-27 | two workers that both read `v` before either writes leave the counter at `v + 1` after two committed writes |
| Strategies.LostUpdateLosesOne | task-1/1_lost_update.py:17-27 | from the bootstrapped row, a complete schedule of two one-update workers commits two writes and ends at counter 1 |
| Strategies.InPlaceRunInv | task-1/2_in_place_update.py:17-23 | in-place workers keep the counter equal to its start plus the commits, and the k-th commit observes start + k + 1 |
| Strategies.InPlaceTotal | task-1/2_in_place_update.py:17-21 | any interleaving from the bootstrapped row keeps the counter equal to the commits, with observed values 1, 2, 3, ... and the version at 1; a fault-free schedule that finishes ends at `p * n` |
| Strategies.RowLockRunInv | task-1/3_row_level_locking.py:18-31 | a locking worker is between its read and its commit exactly while it holds the lock, and it will write the counter plus one |
| Strategies.RowLockTotal | task-1/3_row_level_locking.py:18-27 | at most one worker is ever between lock and commit, and it holds the lock; the counter equals the commits; a fault-free schedule that finishes ends at `p * n` |
| Strategies.OptimisticRunInv | task-1/4_optimistic_concurrency_control.py:16-45 | each successful swap raises counter and version by one, the k-th swap expected version v0 + k, every completed iteration committed, and while no rollback raises, conflicts and errors retry the same iteration |
| Strategies.OptimisticTotal | task-1/4_optimistic_concurrency_control.py:16-45 | with faults included, `version == counter + 1` always holds, successive swaps expected distinct versions and the counter never exceeds `p * n`; a finished run in which no rollback raised ends at `p * n` and `p * n + 1` |
| Strategies.OptimisticRollbackFails | task-1/4_optimistic_concurrency_control.py:41-45 | a statement and its rollback both raising end the worker without a commit: one worker of one update finishes at counter 0 |
| Workers.LostUpdateWorker | task-1/1_lost_update.py:16-28 | a worker run alone on an existing row raises the counter by `n`, logging old + 1 ... old + n, and never writes the version; a missing row stops it at once |
| Workers.InPlaceWorker | task-1/2_in_place_update.py:17-23 | a worker run alone raises the counter by `n` and observes each post-increment value; a missing row ends the loop with nothing changed |
| Workers.RowLockWorker | task-1/3_row_level_locking.py:18-31 | a worker run alone raises the counter by `n` and leaves the lock free; a missing row skips every iteration |
| Workers.OptimisticWorker | task-1/4_optimistic_concurrency_control.py:16-45 | a worker run alone raises counter and version by the number of its logged updates, at most `n`, logging consecutive pairs; exactly `n` unless some rollback raised, which ends the worker; a missing row skips every iteration |
| Workers.TakeStep | task-1/4_optimistic_concurrency_control.py:16-43 | one statement on the store does to the row, the worker and the log exactly what `WorkerStep` says |
| Workers.RunSchedule | task-1/1_lost_update.py:46-52 | playing a schedule on the store ends in the state `Run` gives |
| Workers.Harness | task-1/1_lost_update.py:38-52 | bootstrap plus interleaved workers: `p` workers; the per-strategy totals above hold on the store, the optimistic one when no rollback raised |
| Text.Words | task-8/app/generate_data.py:54 | `split()` gives non-empty words without whitespace |
| Text.WordsJoin | task-8/app/generate_data.py:54 | `" ".join(ws).split() == ws` for non-empty words without whitespace: no word is dropped, merged or split |
| Text.SplitJoin | task-8/app/generate_data.py:54 | splitting a `sep`-join of at least one word without `sep` gives back the words |
| Text.Lower | task-8/app/generate_data.py:54 | `lower()` keeps the length and maps each character by itself |
| Text.ParseInt | task-7/app/db_connection.py:426 | `int(s)` succeeds exactly on an optional sign followed by digits |
| Text.ParseIntToString | task-7/app/db_connection.py:415 | reading back `str(n)` with `int()` gives `n` |
| Uuids.Format | task-5/app/orders.py:155-157 | `str(u)` has 36 characters with dashes at positions 8, 13, 18 and 23, and begins with the first eight hexadecimal digits |
| Uuids.Parse | task-5/app/orders.py:178 | `uuid.UUID(s)` succeeds only when 32 digits remain after the prefixes, braces and dashes are removed |
| Uuids.ParseFormat | task-5/app/orders.py:155-181 | `uuid.UUID(str(u)) == u` |
| Rows.FindFirst | task-5/app/products.py:33-37 | returns `None` exactly when no row matches, and otherwise the first matching row |
| Rows.Filter | task-5/app/products.py:83 | the comprehension keeps only rows that pass, and never more rows than there are |
| Rows.FilterMembers | task-5/app/products.py:83 | a value is kept exactly when it is a row and passes |
| Rows.FilterAppend | task-5/app/products.py:93-95 | filtering keeps row order: filtering a concatenation concatenates the filtered halves |
| Rows.FilterFilter | task-5/app/products.py:93-95 | filtering twice is filtering once by both conditions |
| Rows.FilterNoDup | task-7/app/db_connection.py:281 | filtering a duplicate-free list leaves it duplicate-free |
| NodeLists.Present | task-7/app/db_connection.py:272-273 | the `if node` test keeps only set addresses |
| NodeLists.AppendNew | task-7/app/db_connection.py:270-279 | first-seen deduplication extends the accumulator and adds at most one entry per item |
| NodeLists.AppendNewMembers | task-7/app/db_connection.py:270-279 | deduplication keeps exactly the values of the accumulator and the items |
| NodeLists.AppendNewNoDup | task-7/app/db_connection.py:270-279 | deduplication yields no repeats |
| NodeLists.AppendNewOfNoDup | task-7/app/db_connection.py:400-409 | when nothing repeats, deduplication drops nothing |
| NodeLists.AppendNewAppend | task-7/app/db_connection.py:270-279 | deduplicating configured, then discovered nodes is deduplicating their concatenation |
| NodeLists.AppendNewNested | task-7/app/db_connection.py:394-409 | deduplicating an already deduplicated list again changes nothing |
| NodeLists.PresentAppend | task-7/app/db_connection.py:270-279 | the set-address filter distributes over concatenation |
| NodeLists.PresentMembers | task-7/app/db_connection.py:272-273 | an address survives the filter exactly when it is listed and set |
| NodeLists.PresentAll | task-7/app/db_connection.py:407-409 | a list with no unset entries passes the filter unchanged |
| NodeLists.PresentSnoc | task-7/app/db_connection.py:272-273 | filtering one more address keeps it exactly when it is set |
| NodeLists.AppendUnique | task-7/app/db_connection.py:272-274 | the append loop computes the first-seen deduplication of the set addresses |
| NodeLists.AllHosts | task-7/app/db_connection.py:270-279 | `all_hosts` lists each set configured or discovered address exactly once, and nothing else |
| NodeLists.HostsToTry | task-7/app/db_connection.py:281 | the preferred host comes first and is never tried again |
| NodeLists.HostsToTryMembers | task-7/app/db_connection.py:281 | every host is tried, and nothing else is |
| NodeLists.HostsToTryNoDup | task-7/app/db_connection.py:281 | no host is tried twice |
| NodeLists.AllNodes | task-7/app/db_connection.py:394-409 | `all_nodes` is the local address and then the peers, each set address once |
| Replicas.SpecificNode | task-7/app/db_connection.py:254-257 | an index succeeds exactly inside `0 .. len - 1`, giving that node; otherwise the `ValueError` text |
| Replicas.ReplicationFactor | task-7/app/db_connection.py:412-417 | a missing keyspace row gives 1; otherwise the stored factor when it is an integer literal, else 1 |
| Replicas.StartIndex | task-7/app/db_connection.py:425-429 | the start of the ring walk is a valid index, and 0 when the token is not an integer |
| Replicas.StartIndexOfInt | task-7/app/db_connection.py:426-427 | an integer token starts the walk at `abs(token) % n` |
| Replicas.ReplicationFactorRoundTrip | task-7/app/db_connection.py:412-417 | a stored factor `str(k)` reads back as `k`; a missing key or a missing keyspace gives 1 |
| Replicas.ReplicaCount | task-7/app/db_connection.py:433 | the ring is walked `min(rf, n)` times, and not at all for rf <= 0 |
| Replicas.RingWalk | task-7/app/db_connection.py:433-435 | the i-th step visits node `(start + i) % n` |
| Replicas.Warning | task-7/app/db_connection.py:440-441 | the warning appears exactly when rf exceeds the node count |
| Replicas.RingWalkNoDup | task-7/app/db_connection.py:432-438 | a walk of at most one lap over distinct nodes visits distinct nodes |
| Replicas.ReplicaPlacement | task-7/app/db_connection.py:432-438 | over distinct nodes, exactly `min(rf, n)` pairwise-distinct replicas, the i-th being `i` steps round the ring |
| Replicas.ReplicasAreNodes | task-7/app/db_connection.py:432-438 | over any list, the replicas are distinct nodes of it, at most `min(rf, n)` |
| Replicas.ElementsMembers | task-7/app/db_connection.py:436-437 | set membership and list membership agree |
| Replicas.ElementsSnoc | task-7/app/db_connection.py:437 | adding a node to the list adds it to the set |
| Replicas.WalkRing | task-7/app/db_connection.py:432-438 | the ring loop collects exactly the specified replicas and writes one line per replica |
| Replicas.ReplicaText | task-7/app/db_connection.py:419-447 | an empty cluster reports only the no-nodes text and the total; every report ends with the total line |
| Replicas.ChooseReplicas | task-7/app/db_connection.py:419-445 | the placement and the text match the specification, including the warning, the empty-cluster text and the total line |
| Replicas.Nodetool | task-7/app/db_connection.py:331-449 | dispatch: `status` gives the status report; `getendpoints ` gives the placement text or the usage; anything else gives "not implemented" |
| Replicas.GetendpointsPlacement | task-7/app/db_connection.py:382-445 | the report names `min(rf, n)` set, distinct addresses from the token's node on, then the warning and the total |
| Endpoints.StrLtIrreflexive | task-7/app/db_connection.py:598 | no string is below itself |
| Endpoints.StrLtAsymmetric | task-7/app/db_connection.py:598 | two strings are never below each other |
| Endpoints.StrLtTransitive | task-7/app/db_connection.py:598 | the string order is transitive |
| Endpoints.StrLtTotal | task-7/app/db_connection.py:598 | distinct strings are comparable |
| Endpoints.SortedNoDup | task-7/app/db_connection.py:598 | a strictly sorted list has no repeats |
| Endpoints.SortedCons | task-7/app/db_connection.py:598 | a value below the head of a sorted list extends it sorted |
| Endpoints.Insert | task-7/app/db_connection.py:598 | inserting into a sorted list keeps it sorted, keeps every element and adds only the value |
| Endpoints.SortUnique | task-7/app/db_connection.py:598 | `sorted(set(xs))` is sorted |
| Endpoints.SortUniqueMembers | task-7/app/db_connection.py:598 | `sorted(set(xs))` holds exactly the values of `xs` |
| Endpoints.SortedFirst | task-7/app/db_connection.py:598 | the head of a sorted list is its least element |
| Endpoints.SortedUnique | task-7/app/db_connection.py:598 | two sorted lists with the same elements are equal |
| Endpoints.NodesList | task-7/app/db_connection.py:566-599 | `sorted` of the reported addresses, padded with the container names when fewer than three were found (its properties are in Endpoints.NodesListFacts) |
| Endpoints.NodesListFacts | task-7/app/db_connection.py:569-598 | the node list is sorted, holds every reported address, adds the container names when fewer than three were found, and has at least three entries |
| Endpoints.PyPrefix | task-7/app/db_connection.py:602 | `s[:k]` is a prefix of `min(k, len)` entries, or all but the last `-k` when `k < 0` |
| Endpoints.EndpointsSmallest | task-7/app/db_connection.py:598-602 | for rf >= 0, the endpoints are the `min(rf, n)` smallest names, in order, each below every name left out |
| Endpoints.RfWarning | task-7/app/db_connection.py:607-608 | the warning appears exactly when the factor exceeds the node count |
| Endpoints.EndpointsOf | task-7/app/db_connection.py:601-602 | the endpoints are a prefix of the node list, all of it when the factor reaches the node count |
| Endpoints.EndpointsReport | task-7/app/db_connection.py:559-615 | a missing keyspace gives the not-found text, a non-integer factor the error text, and otherwise the report starts with the factor line |
| Endpoints.GetEndpoints | task-7/app/db_connection.py:559-615 | the report loop builds the specified report: missing keyspace, non-integer factor, endpoints, warning and total |
| Endpoints.AppendLines | task-7/app/db_connection.py:604-605 | the endpoint loop appends one line per endpoint, in order |
| Endpoints.GetEndpointsReplicas | task-7/app/db_connection.py:559-615 | for a factor `k >= 0`, the report lists the `min(k, n)` smallest node names in order, with `n >= 3` |
| GenerateData.KindOf | task-8/app/generate_data.py:108 | news items are generated exactly for `data_type == "news"`, otherwise articles |
| GenerateData.GenerateBatches | task-8/app/generate_data.py:110-113 | a zero batch size raises `ValueError`; otherwise the yielded batch sizes are those of `range(0, num_docs, batch_size)` |
| GenerateData.BatchSizes | task-8/app/generate_data.py:110-112 | the batch lengths of `range(i, num_docs, batch_size)`; with a negative batch size every batch is empty |
| GenerateData.BatchSizesSum | task-8/app/generate_data.py:110-112 | the batch sizes add up to the documents remaining |
| GenerateData.BatchSizesBounds | task-8/app/generate_data.py:111 | each batch holds 1 to `batch_size` documents, and all but the last are full |
| GenerateData.BatchSizesCount | task-8/app/generate_data.py:110 | there are `ceil(remaining / batch_size)` batches |
| GenerateData.GeneratorBatches | task-8/app/generate_data.py:106-113 | for a positive batch size: the sizes sum to `max(num_docs, 0)`, each lies in `1 .. batch_size`, all but the last are full, `ceil` many, and none for `num_docs <= 0` |
| GenerateData.NewsText | task-8/app/generate_data.py:45-49 | the news text is between the drawn length and `MAX_TEXT_LENGTH` (so at least `MIN_TEXT_LENGTH`), starting with the first paragraph |
| GenerateData.Truncate | task-8/app/generate_data.py:49 | `s[:n]` is a prefix of length `min(len, n)` |
| GenerateData.JoinNoSpace | task-8/app/generate_data.py:54 | joining space-free words with a non-space separator has no whitespace |
| GenerateData.UrlPath | task-8/app/generate_data.py:54 | the url path is empty exactly when the title has no words |
| GenerateData.UrlPathWords | task-8/app/generate_data.py:54 | the url path has no whitespace, and splitting it on '-' gives back the lower-cased title's first five words when they hold no '-' |
| GenerateData.NewsUrl | task-8/app/generate_data.py:55 | the url starts with `https://www.` |
| GenerateData.NewsUrlSuffix | task-8/app/generate_data.py:54-55 | the url ends in the url path, a dash and the id's first eight hexadecimal digits |
| Products.WithProperty | task-5/app/products.py:104-105 | setting a property gives the key that value and leaves every other key as it was |
| Products.WithoutProperty | task-5/app/products.py:121-123 | deleting a property drops only that key, one entry fewer |
| Products.PropertyEditsInverse | task-5/app/products.py:104-123 | the add and remove edits undo each other: removing a newly added property, or re-adding a removed value, restores the map |
| Products.GetProductById | task-5/app/products.py:33-37 | `None` exactly when no row has the id, otherwise the first row with it |
| Products.ByPropertyExists | task-5/app/products.py:83 | every kept row holds the key |
| Products.ByPropertyValue | task-5/app/products.py:93-95 | every kept row holds the key with that value |
| Products.ByPropertyExistsMembers | task-5/app/products.py:83 | a row is kept exactly when it is in the category and holds the key |
| Products.ByPropertyValueMembers | task-5/app/products.py:93-95 | a row is kept exactly when it holds the key with the value |
| Products.ByPropertyValueRefines | task-5/app/products.py:83-95 | the value filter is the key filter followed by the value test, in row order |
| Products.AddProperty | task-5/app/products.py:97-112 | `False` with no statement for a missing product; otherwise `True`, and one UPDATE for the found product's key carrying its map with the property set |
| Products.RemoveProperty | task-5/app/products.py:114-131 | `True` exactly when the product exists and holds the key; the UPDATE carries its map without it; otherwise `False` and no statement |
| Products.UpdateProperties | task-5/app/products.py:133-145 | `False` for a missing product; otherwise the UPDATE replaces its whole map |
| Products.ProductExists | task-5/app/products.py:147-166 | `False` on a zero count; otherwise `True` exactly when some row has the name |
| Orders.InsertQuery | task-5/app/orders.py:13-19 | the TTL clause is appended exactly when the TTL is truthy, and its number reads back as that TTL |
| Orders.CreateOrder | task-5/app/orders.py:8-22 | `create_order` binds the given values with the fresh id and time, returns that id, and adds the TTL clause only for a truthy TTL |
| Orders.GetOrderById | task-5/app/orders.py:42-46 | `None` exactly when no order has the id, otherwise the first one with it |
| Orders.CustomerSum | task-5/app/orders.py:77-81 | the `SUM(total_value)` over the customer's rows; non-negative when every total is |
| Orders.TotalSpent | task-5/app/orders.py:82 | a null sum reads as 0; any other sum is reported as is (a zero sum also reads as 0) |
| Orders.TotalSpentNoOrders | task-5/app/orders.py:75-82 | a customer with no orders has spent 0 |
| Orders.TotalSpentAfterInsert | task-5/app/orders.py:75-82 | inserting an order raises its customer's total by its value and leaves every other customer's total unchanged |
| Orders.MaxIndex | task-5/app/orders.py:96 | `max(..., key=total_value)` picks an order no other exceeds: the first of the maximal ones |
| Orders.MaxOrder | task-5/app/orders.py:92-96 | `None` exactly for no orders; otherwise one of the orders, with the largest total |
| Orders.UpdateOrder | task-5/app/orders.py:98-116 | no order found gives `False` and no statement; otherwise the UPDATE uses the order's date, and the result is `True` unless executing it raises |
| Orders.UuidTexts | task-5/app/orders.py:157 | the products are exported as their `str` forms, in order |
| Orders.OrderToJson | task-5/app/orders.py:153-159 | the export has exactly the five order fields |
| Orders.Export | task-5/app/orders.py:153-165 | a found order exports to `None` exactly when its products column is null, and otherwise to its five-field dictionary |
| Orders.GetOrderAsJson | task-5/app/orders.py:143-165 | `None` exactly when the order is not found or its products column is null (the `TypeError` at line 157 is caught); otherwise the export of the first match |
| Orders.UuidOf | task-5/app/orders.py:181 | a JSON value reads as a UUID only when it is text that `uuid.UUID` accepts |
| Orders.UuidList | task-5/app/orders.py:178 | the product list converts element by element, in order |
| Orders.ProductsOf | task-5/app/orders.py:178 | a missing products key means no products |
| Orders.DateOf | task-5/app/orders.py:184 | a missing order date means the current time |
| Orders.TotalOf | task-5/app/orders.py:186 | a missing total means 0 |
| Orders.InsertOrderQuery | task-5/app/orders.py:188-194 | the import's INSERT carries the TTL clause exactly for a truthy TTL |
| Orders.ImportOrder | task-5/app/orders.py:167-200 | undecodable text or a missing or falsy name gives `None`; a non-object raises; an insert carries the given name, a fresh id when none is given, and total 0 when none is given |
| Orders.UuidListTexts | task-5/app/orders.py:157-178 | exported product ids read back as the same list |
| Orders.ExportImport | task-5/app/orders.py:153-186 | importing an exported order with a name re-inserts the same name, id, date, products and total; an empty name is refused |

## Left out

- Connections, cursors, isolation levels, commits as calls, cluster and session objects, logging, timing and console output are all I/O. Each statement appears only through its effect on the modelled row, or as the statement value returned.
- The `multiprocessing` processes themselves cannot be modelled. Their interleavings are schedules of choices.
  - The model does not prove that every fair schedule lets every worker finish. The totals are stated for schedules after which every worker has left its loop.
- Strategies.Raised does not distinguish which statement raised or why. A fault either is recovered from by OCC's handler or, when its `conn.rollback()` raises too, ends the worker. The other strategies end on any fault.
- Strategies.WorkerStep treats each statement together with its commit as one atomic step. Under READ COMMITTED, the row lock an UPDATE takes is held until the commit, so no other statement can see the state in between.
- The sequential lost-update claim "alone from counter 0 ends at NUM_UPDATES" is covered by Workers.LostUpdateWorker. The harness's default values of `NUM_PROCESSES` and `NUM_UPDATES`, and all other environment configuration, are parameters.
- These task-7 parts are I/O or text layout and are not modelled:
  - the connection retry loops;
  - best-peer discovery (`discover_all_nodes`);
  - the host-by-host connection attempts;
  - the layout of the `status` report;
  - the `getendpoints` session setup (lines 490-557);
  - every `except Exception` that turns a driver error into an error text.
- Endpoints.NodesList uses the default container names. The `CASSANDRA_*_NAME` environment overrides are left out.
- Text.ParseInt accepts only an optional sign followed by ASCII digits. Python's `int()` also accepts surrounding whitespace, underscores between digits and non-ASCII digits.
- Replicas.ReplicationFactor and Endpoints.EndpointsReport inherit all three gaps of Text.ParseInt: surrounding whitespace, underscores between digits and non-ASCII decimal digits. An `rf` text such as `" 3"`, `"1_0"` or `"١٠"` is read by Python as a number, but here it falls back to 1 (Replicas) or gives the error text (Endpoints).
- Replicas.StartIndex inherits the underscore and non-ASCII-digit gaps. Its token comes from `command.split()`, so it holds no whitespace. A token such as `"1_0"` or `"١٠"` starts the walk at node 0 instead of at `10 % n`.
- Endpoints.ParseError quotes the `rf` text between plain single quotes. Python's message uses `repr`, which escapes `\` and uses double quotes when the text contains `'`.
- Text.Lower lower-cases ASCII letters only, and Text.Words splits on ASCII whitespace only. Python's `lower()` and `split()` also handle Unicode cases and spaces.
- Uuids.Parse requires the 32 remaining characters to be hexadecimal digits. Python's `int(hex, 16)` inside `uuid.UUID` also accepts some other 32-character forms: surrounding whitespace, underscores between digits, a leading `+`, and a `0x` or `0X` prefix (so `"0x"` followed by 30 hexadecimal digits parses in Python). A leading `-` passes only when every digit is zero, because the range check in `uuid.UUID` rejects negative values.
- GenerateData.NewsText takes the paragraphs Faker yields as an input function, and the drawn `text_length` as a number in `MIN_TEXT_LENGTH .. MAX_TEXT_LENGTH`. Faker's content, `random` draws, dates, authors and the article generator are not modelled.
- `generate_news_batch` and `generate_articles_batch` only call the Faker-based generators, so they are left out for the same reason.
- Products and orders use whole numbers for prices and totals. Floating-point values and `float()` formatting are not modelled.
- Orders.ImportOrder takes the value `json.loads` produced, with a decode error given as `None`, so it does not model JSON text.
  - Dates are carried as ISO text, and `fromisoformat` does not check them.
  - A `total_value` given as text must be an integer literal.
  - A `products` value that is a non-empty JSON object counts as rejected: dictionary key order is not kept by the model.
- Orders.GetOrderAsJson returns the dictionary value, not the `json.dumps` text.
- Orders.GetOrderAsJson: `total_value` is always a number here. A row whose total is null would make `float(None)` raise, and the source would return `None`. Such a row can only come from calling `create_order` or `update_order` with `None` as the total.
- Orders.CreateOrder and Orders.InsertQuery write the INSERT text on one line. The source's whitespace inside the triple-quoted string differs.
- `get_order_writetime`, `insert_product`, and the pure pass-through queries of `products.py` and `orders.py` are single driver calls with no logic of their own. These are `get_products_by_category`, `..._by_name`, `..._by_price_range`, `..._by_manufacturer`, `get_customer_orders` and `get_customer_orders_..._with_product/_by_date_range`.
