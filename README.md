# Order store and type/date summary

A model of the order-management service's core: an in-memory store of
orders (`id`, `title`, `date`, `type`, `customer`, all strings) with an
insert that refuses a duplicate id and a lookup by id, and the type/date
query that filters the orders by type and by hyphen-stripped date and returns
`{type, count, orders, related_customers}`.

The repository carries the core twice, and both are modelled:

- `src/database.ts`, the `Database` class (module `OrderDatabase`,
  database.dfy). `addOrder` checks its `id` argument and appends its `order`
  argument. The query sorts the matches stably by date, keeps the ids of
  the last ten in ascending order, and echoes the query type.
- `server.ts`, the single-file variant (module `Server`, server.dfy). It has
  a module-level `orders` array that the POST handler pushes to when the id
  is absent. Its query folds the matches without sorting and cuts the id list
  with `lastTenOrders`. Its `type` is the type of the last match, or `''`
  when there is none.

The pieces both share are in module `Orders` (orders.dfy):

- the `Order` and summary records;
- `undasheriseDate`, i.e. `replaceAll('-', '')`;
- `find` by id and the type/date `filter`;
- `[...new Set(xs)]`, the order-preserving deduplication used in both reduces.

lodash's `sortBy` is module `Sorting` (sorting.dfy). It is a stable
insertion sort, proved sorted, a permutation, and stable: for each key, the
elements with that key keep their input order. Module `Variants`
(variants.dfy) states how the two queries compare on the same store.

The store is an in-memory sequence. Each class's constructor receives the
parsed JSON document's `orders` as a parameter. For the class, `None` means
no document or a document without an `orders` field, both of which
`defaults` fills with `[]`. For the single-file variant, `None` means no
document was read. The date parser `new Date(date).valueOf()` is a parameter
`dateValue: string -> int` of the class's query. Every match has the queried
digit string. So when the stored dates are `YYYY-MM-DD` calendar dates, all
matches carry the same date string and the same key. The stable sort then
changes nothing, and `orders` is the ids of the last ten matches in store
order (`OrderDatabase.CalendarDatesKeepStoreOrder`).

## Model

| member | source | states |
|---|---|---|
| `Orders.Undasherise` | server.ts:36 | the result has no `'-'` and keeps every other character as often as the input has it |
| `Orders.UndasheriseAppend` | server.ts:36 | stripping hyphens is piecewise over concatenation, so the remaining characters keep their order |
| `Orders.UndasheriseKeepsHyphenFree` | server.ts:36 | a string without `'-'` is returned unchanged |
| `Orders.UndasheriseIdempotent` | server.ts:36 | stripping twice equals stripping once |
| `Orders.UndasheriseCalendarDate` | server.ts:36 | a `YYYY-MM-DD` date strips to its eight digits `YYYYMMDD` |
| `Orders.CalendarDateDeterminedByDigits` | src/database.ts:54-56 | two `YYYY-MM-DD` dates that strip to the same digits are equal, so all matches of one query share one date |
| `Orders.Matches` | server.ts:44 | a match has the queried type, and the queried date has no `'-'` and is no longer than the order's date |
| `Orders.FindById` | server.ts:38-40 | nothing exactly when no order has the id; otherwise the order at the first position holding that id |
| `Orders.FindAppendedOrder` | server.ts:83-86 | after pushing an order whose id was absent, looking up that id returns that order |
| `Orders.FindUnaffectedByAppend` | src/database.ts:42-49 | appending leaves the lookup of an id already stored unchanged |
| `Orders.FindStoredOrder` | src/database.ts:45-49 | with unique ids, looking up any stored order's id returns that order |
| `Orders.FilterByTypeDate` | server.ts:42-46 | every result matches the type and the stripped date, and there are no more results than stored orders |
| `Orders.FilterCounts` | server.ts:43-45 | each matching order occurs in the result as often as in the store, every other order not at all |
| `Orders.FilterAppend` | src/database.ts:52-57 | filtering is piecewise over concatenation, so matches keep store order |
| `Orders.FilterKeepsMatching` | server.ts:43-45 | a list whose every element matches is returned whole |
| `Orders.FilterDropsNonMatching` | server.ts:43-45 | a list with no matching element gives the empty list |
| `Orders.SetSpread` | src/database.ts:74 | `[...new Set(xs)]` has no duplicates and holds exactly the elements of `xs` |
| `Orders.SetSpreadOfDistinct` | server.ts:67 | spreading a duplicate-free list returns it unchanged |
| `Orders.SetSpreadStep` | src/database.ts:74 | the reduce step `[...new Set([...acc, c])]` on a spread accumulator equals spreading the whole list with `c` appended |
| `Orders.SetSpreadAddsIfAbsent` | server.ts:67 | on a duplicate-free accumulator the step appends `c` exactly when `c` is not there |
| `Orders.SetSpreadFirstAppearanceOrder` | src/database.ts:74 | the spread lists elements in order of their first appearance in the input |
| `Sorting.Insert` | src/database.ts:60 | inserting adds exactly the one element to the list's multiset |
| `Sorting.InsertSorted` | src/database.ts:60 | inserting into a list sorted by key keeps it sorted |
| `Sorting.InsertWithKey` | src/database.ts:60 | the inserted element comes before every element that has its key |
| `Sorting.SortBy` | src/database.ts:60 | `sortBy` returns a permutation of its input |
| `Sorting.SortBySorted` | src/database.ts:60 | the result of `sortBy` is in ascending key order |
| `Sorting.SortByStable` | src/database.ts:60 | for every key, the elements with that key come out in their input order |
| `Sorting.SortByEqualKeys` | src/database.ts:59-60 | when all keys are equal the sort returns its input unchanged |
| `OrderDatabase.Reverse` | src/database.ts:61 | `reverse()` keeps the length and puts element `i` at position `n-1-i` |
| `OrderDatabase.Take` | src/database.ts:62 | `take(n)` gives the prefix whose length is `n` or the whole list when it is shorter |
| `OrderDatabase.LastTenIds` | src/database.ts:59-65 | reverse, take 10, map to ids, reverse gives the ids of the last `min(n,10)` sorted matches in ascending order |
| `OrderDatabase.DateKey` | src/database.ts:60 | the sort key depends only on the date string: equal dates give equal keys |
| `OrderDatabase.SummaryStep` | src/database.ts:68-76 | a step echoes the query type, sets the closed-over count and ids, and on a duplicate-free customer list appends the customer exactly when it is new |
| `OrderDatabase.ReduceSummary` | src/database.ts:67-83 | the reduce echoes the query type; with no order folded it keeps the initial `count: 0, orders: []`, otherwise it holds the closed-over count and ids |
| `OrderDatabase.ReduceSummaryFields` | src/database.ts:67-83 | the reduce's customer list is the deduplicated customers of all folded orders in first-appearance order |
| `OrderDatabase.Summarise` | src/database.ts:59-84 | the summary of the matches echoes the type, counts every match and lists `min(count,10)` ids |
| `OrderDatabase.SummariseSpec` | src/database.ts:51-85 | type echoed, `count` the number of matches, `orders` the ids of the last `min(count,10)` of the stable date sort in ascending order, customers of all matches once each |
| `OrderDatabase.SummariseNoMatches` | src/database.ts:77-82 | with no match the result is `{type, 0, [], []}` |
| `OrderDatabase.CalendarDatesKeepStoreOrder` | src/database.ts:52-65 | with `YYYY-MM-DD` dates in the store, `orders` is the ids of the last ten matches in store order |
| `OrderDatabase.MismatchedIdBreaksUniqueness` | src/database.ts:35-43 | when `id` is absent but `order.id` is present, the append stores a duplicate id |
| `OrderDatabase.Database.constructor` | src/database.ts:28-33 | the collection is the document's orders, or empty when it has none |
| `OrderDatabase.Database.AddOrder` | src/database.ts:35-43 | a stored `id` gives the error and leaves the orders unchanged; otherwise `order` is appended after the unchanged old orders; unique ids are kept when `order.id == id` |
| `OrderDatabase.Database.GetOrderById` | src/database.ts:45-49 | nothing exactly when no stored order has the id; otherwise the first stored order with it |
| `OrderDatabase.Database.GetOrdersByTypeDate` | src/database.ts:51-85 | type echoed, count of filtered matches, ids of the last ten of the stable date sort, deduplicated customers of all matches |
| `Server.LastTenOrders` | server.ts:48-55 | the result is a suffix of the input: the input itself when `orderCount <= 10`, otherwise the first `orderCount - 10` elements dropped |
| `Server.LastTenOrdersOfLength` | server.ts:77 | called with the list's own length, it keeps the last `min(n,10)` elements |
| `Server.Drop` | server.ts:52 | `_.drop(xs, n)` is the suffix of `xs` left after removing the first `n` elements, all of `xs` for `n <= 0` and nothing when `n` is at least the length |
| `Server.TotalStep` | server.ts:61-69 | a step takes the order's type and the closed-over count, appends the order's id, and on a duplicate-free customer list appends the customer exactly when it is new |
| `Server.ReduceTotals` | server.ts:60-76 | the reduce yields one id per order folded, the last order's type (`''` when none), and the closed-over count once an order has been folded |
| `Server.ReduceTotalsFields` | server.ts:60-76 | the reduce's ids are the input ids in input order, and its customers are the deduplicated customers of all inputs |
| `Server.TotalOrdersByTypeDate` | server.ts:57-78 | `count` is the input length and `orders` has `min(count,10)` entries |
| `Server.TotalOrdersByTypeDateSpec` | server.ts:57-78 | `count` is the input length, `orders` the ids of the last `min(n,10)` inputs unsorted, `type` the last input's type or `''`, customers deduplicated in first-appearance order |
| `Server.OrderStore.constructor` | server.ts:29-34 | the array is the document's `orders`, or empty when no document was read |
| `Server.OrderStore.GetOrderById` | server.ts:38-40 | `undefined` exactly when no order has the id; otherwise the first order with it |
| `Server.OrderStore.GetOrderByTypeDate` | server.ts:42-46 | the filter of the array in array order: exactly the matching orders, each as often as stored |
| `Server.OrderStore.PostOrder` | server.ts:83-85 | pushes `body` at the end exactly when its id is absent, and otherwise leaves the array unchanged; unique ids are kept, and afterwards `body.id` can be found |
| `Variants.VariantsCompared` | server.ts:57-78 | on the same store with `YYYY-MM-DD` dates, both queries give equal count, ids and customers; the class echoes the query type, the single-file variant gives `''` when nothing matches |

## Left out

- HTTP routing, CORS and response writing (src/server.ts, server.ts:25-27 and
  server.ts:80-111 apart from the insert step). This includes the missing
  early `return` that makes both handlers answer twice. It is response-layer
  behaviour, not store logic.
- lowdb persistence: `db.read`, `db.write`, `defaults(...).write()` and the
  JSON file adapter. The document's contents are a constructor parameter and
  the store is an in-memory sequence. A failed write is not modelled.
- `new Date(o.date).valueOf()`: JavaScript date parsing to a float, `NaN` for
  a malformed string, and how lodash orders `NaN` keys. The key is an
  arbitrary integer-valued function `dateValue` of the date string.
- `async`/`Promise` wrappers. In both variants the id check and the append
  run in one synchronous step. In src/database.ts:36-42 the only `await` is
  on the result of `.write()`. In server.ts:83-84 the check and the `push`
  are adjacent statements. Node runs one step at a time, so two inserts
  cannot interleave between check and append, and the sequential model
  loses nothing.
- A document that is read but has no `orders` field. src/database.ts:32
  fills in `[]`. server.ts:32-34 keeps `db.data` as read, so `orders` is
  `undefined` and every later `find`, `filter` or `push` throws. The
  single-file constructor does not model that failing state.
- src/util.ts is not part of this model. `undasheriseDate` is taken from its
  definition in server.ts.
- JavaScript numbers: `count` is an unbounded integer.
- Lookup by id treats an order as found when an object is returned. Every
  order object is truthy, so `if (existingId)` and `!getOrderById(...)`
  reduce to "an order with that id exists".
