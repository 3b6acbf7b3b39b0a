# Mock API handlers and dotted-key helpers, in Dafny

This project models two parts of a web application's code base and proves
properties of the model.

1. **The mock API's request handlers** (`mockHandler` in
   `mockSystem/src/handler.ts`). They cover these operations:
   - `register` and `login` on users;
   - `captcha` and `checkCaptcha` on phone-captcha sessions;
   - `refresh` on token pairs;
   - the authenticated `createBill`, `getUserInfo` and `bill.list`.

   Every handler answers with one of two envelopes: a success object, or an
   explicit error with a status and a message. The record store behind the
   handlers is module `Store`. Each collection (`user`, `session`, `bill`) is
   a sequence of records in store order, and each record is keyed by a
   string `id`. The store has the five operations the handlers use:
   `find`, `findById`, `insert` with a fresh id, `update` as an upsert, and
   `remove`.
   - The pure functions `Find`, `FindById`, `Upserted` and `Removed`
     describe one collection.
   - `Store.Collection` holds a collection and changes it in place.
   - `Handlers.Storage` holds the three collections.

   Handlers that change the store are module-level methods that take the
   store (`db: Storage`) and change its collections. The read-only handlers
   are functions of the collection they read.

2. **The dotted-key helpers** `getValueByKey`, `createObjFromKey` and
   `setValueByKey` of `src/utils/index.ts`. A JavaScript object is a heap
   object (`KeyPaths.JsObject`) whose own properties are a
   `map<string, Value>`. A value is `undefined`, `null`, another primitive,
   or a reference to an object. Because properties live on the heap,
   `setValueByKey` changes the objects on the key's path in place, and the
   change is seen through any alias those objects have.

The collaborators whose code is outside the model are represented like this:
- `getTokens(claims)` becomes the symbolic pair `GetTokens(claims)` of an
  access payload and a refresh payload.
- `formatDto(kind, record, permission)` becomes the symbolic `BillDto` or
  `UserDto`.
- `verifyToken` is a function parameter.
- The results of `randomString`, the clock (`new Date()`), and register's
  failing insert or failing `getTokens`, are parameters of the handler that
  uses them.
- `checkAuthentication` has already run: an authenticated handler receives
  the verified claims as `tokenData`.

A request field that JavaScript tests with `!x` is a string. The empty string
stands for both an absent and an empty field.

## Model

| member | source | states |
|---|---|---|
| Store.Find | mockSystem/src/handler.ts:22-24 | find returns exactly the records the matcher accepts (a record is in the result iff it is stored and matches), and never more records than the collection holds |
| Store.FindHead | mockSystem/src/handler.ts:36-40 | the head of find's result (`const [user] = ...`) is the first matching record of the collection in store order |
| Store.FindNoneMatch | mockSystem/src/handler.ts:22-25 | find's result is empty iff no stored record matches, in both directions |
| Store.FindAppend | mockSystem/src/handler.ts:94 | find over two runs of records placed one after the other is find over the first run followed by find over the second |
| Store.FindIsOrdered | mockSystem/src/handler.ts:94-98 | find keeps store order: its k-th result stands in the collection after exactly k earlier matches |
| Store.FindById | mockSystem/src/handler.ts:46-47 | findById is absent iff no record has the id; when present, the record is stored and carries that id |
| Store.FindByIdUnique | mockSystem/src/handler.ts:85 | with unique ids, findById of a stored record's id returns that very record |
| Store.LongestId | mockSystem/src/handler.ts:29 | no stored id is longer than the computed bound |
| Store.FreshId | mockSystem/src/handler.ts:29 | the id insert gives a new record is non-empty and is carried by no stored record |
| Store.Upserted | mockSystem/src/handler.ts:66-69 | after update the record is stored; every other stored record with a different id survives; nothing but the record and the old records is present |
| Store.UpsertedLength | mockSystem/src/handler.ts:66-69 | update replaces a record (same length) when the id is taken, and appends one (length + 1) otherwise |
| Store.UpsertedKeepsUnique | mockSystem/src/handler.ts:66-69 | update keeps the ids of a collection unique |
| Store.Removed | mockSystem/src/handler.ts:49-54 | after remove, no record has the id; a record survives iff it was stored and has another id |
| Store.RemovedAbsent | mockSystem/src/handler.ts:49-54 | removing an id that no record carries leaves the collection unchanged |
| Store.RemovedKeepsUnique | mockSystem/src/handler.ts:49-54 | with unique ids, remove keeps them unique and deletes exactly one record when one has the id |
| Store.Collection.Insert | mockSystem/src/handler.ts:29 | insert appends exactly one record holding the data under an id no stored record had, and keeps ids unique |
| Store.Collection.Update | mockSystem/src/handler.ts:66-70 | update (upsert) replaces the collection by Upserted, returns the stored record and keeps ids unique |
| Store.Collection.Remove | mockSystem/src/handler.ts:49 | remove replaces the collection by Removed and keeps ids unique |
| Handlers.Register | mockSystem/src/handler.ts:21-34 | a taken name gives 400 '用户名已存在' with users unchanged; a failing insert gives 500 with its message and no user stored; otherwise exactly one user with the request data is appended under a fresh id, and the answer is the tokens for that user's id and permission, or 500 with getTokens' message when getTokens fails (the user then stays stored) |
| Handlers.Login | mockSystem/src/handler.ts:35-41 | login succeeds iff some user matches both name and password; it then issues tokens for the first such user in store order; otherwise it answers 400 '用户名或密码错误' |
| Handlers.RegisteredUserCanLogin | mockSystem/src/handler.ts:22-40 | a user that register appended under an untaken name can log in with its name and password and gets the tokens for its own claims |
| Handlers.CheckCaptcha | mockSystem/src/handler.ts:42-56 | empty captcha, then empty id, then unknown id each give their 400 and leave sessions untouched; an expired session gives 400 '验证码已过期' and is removed; a wrong code gives 400 '验证码错误' and the session stays; a match succeeds and removes the session |
| Handlers.Captcha | mockSystem/src/handler.ts:63-71 | an empty phone gives 400 and stores nothing; otherwise the session {phone, code} without expiry is upserted, and the answer carries its id as captchaId and the same code, findById of which returns that session |
| Handlers.Refresh | mockSystem/src/handler.ts:72-79 | a missing token gives 400; a failed verification gives 401 with the verifier's message; a payload that is not a refresh token gives 401 'refreshToken无效'; success only otherwise, with tokens for the payload's claims |
| Handlers.RefreshAcceptsOnlyRefreshTokens | mockSystem/src/handler.ts:74-78 | presenting the access token of a getTokens pair is refused with 401; presenting its refresh token yields a pair with the same claims |
| Handlers.CreateBill | mockSystem/src/handler.ts:57-60 | exactly one bill is appended under a fresh id; its owner is the caller's id whatever the request carries; users and sessions are unchanged; the answer is the bill formatted with the caller's permission |
| Handlers.GetUserInfo | mockSystem/src/handler.ts:83-89 | an unknown id gives 400 '用户不存在'; the user findById returns gives 400 '用户已删除' when it is deleted and otherwise success with that user formatted with its own permission; a failure is one of the two 400s; with unique ids, success iff the caller's stored user is not deleted |
| Handlers.Slice | mockSystem/src/handler.ts:98 | slice clamps both bounds to the length, and its items are the items of the window in order |
| Handlers.FormatBills | mockSystem/src/handler.ts:99 | the map formats each bill in order, for the viewer's permission, and keeps the length |
| Handlers.MulIsProduct | mockSystem/src/handler.ts:98 | the repeated-addition product used for page bounds equals `*` |
| Handlers.BillList | mockSystem/src/handler.ts:90-101 | bill.list succeeds with the window [(current-1)*pageSize, min(current*pageSize, n)) of the caller's bills in store order, each formatted with the caller's permission |
| Handlers.BillListOnlyOwn | mockSystem/src/handler.ts:94-99 | every bill a page lists is a stored bill whose userId is the caller's id, formatted with the caller's permission |
| Handlers.PageItemIsOwn | mockSystem/src/handler.ts:94-99 | item k of a page is one of the caller's bills, formatted for the caller |
| Handlers.BillOnItsPage | mockSystem/src/handler.ts:98 | pages tile the caller's bills: with pageSize > 0, bill idx is item idx % pageSize of page idx / pageSize + 1 |
| Handlers.PaginationExample | mockSystem/src/handler.ts:98 | with 25 own bills and pageSize 10, page 1 is the first ten, page 3 has five items and page 4 is empty |
| Handlers.RegisterTwice | mockSystem/src/handler.ts:21-34 | registering a name twice succeeds once, refuses the second with 400, and leaves exactly one user with that name |
| Handlers.CaptchaIsSingleUse | mockSystem/src/handler.ts:42-71 | a captcha checked with its code succeeds once; a second check with the same id answers '验证码不存在', and no session has that id |
| KeyPaths.Split | src/utils/index.ts:4 | key.split('.') gives at least one piece and no piece contains a dot |
| KeyPaths.JoinSplit | src/utils/index.ts:4 | joining the pieces of a split with '.' gives the key back |
| KeyPaths.SplitJoin | src/utils/index.ts:4 | splitting dot-free pieces joined with '.' gives the pieces back |
| KeyPaths.SplitDotFree | src/utils/index.ts:4 | a key without a dot splits into itself alone |
| KeyPaths.SplitCons | src/utils/index.ts:4 | a dot-free head, a dot and a tail split into the head followed by the tail's pieces |
| KeyPaths.WalkAlongChain | src/utils/index.ts:2-21 | reading along a chain of objects linked key by key gives the value stored under the last key |
| KeyPaths.GetValueByKey | src/utils/index.ts:2-10 | the loop's result is ValueByKey: obj itself for an absent key, otherwise the value reached by reading prefix + piece for each piece in order, or the error a read of undefined or null throws |
| KeyPaths.CreateObjFromKey | src/utils/index.ts:12-22 | an absent key gives value itself; otherwise a chain of distinct fresh objects, one per piece, each holding only the next, the last holding only value; getValueByKey of the result with the same key gives value |
| KeyPaths.SetValueByKey | src/utils/index.ts:24-33 | an absent key gives a fresh object holding target's then value's own properties, and no existing object changes; a key gives back target itself, reuses the objects already on the path, creates `{}` only where the path met undefined or null (each holding only the path), stores value as an own property under the last piece, changes no other slot, and then getValueByKey(target, key) is value |
| KeyPaths.SetPath | src/utils/index.ts:26-32 | the key branch over the pieces: the same reuse, creation, frame and round-trip facts, stated for the piece sequence |
| KeyPaths.Descend | src/utils/index.ts:28-30 | after the loop, the path's first objects are the existing ones, linked as before; the rest are fresh `{}`s hung where the path met undefined or null; the path is linked; only the slot where the new objects hang has changed |
| KeyPaths.Advance | src/utils/index.ts:29 | one round of `cur = cur[k] ??= {}` keeps the loop invariant, and moves either to an object that was already linked or to a fresh one |
| KeyPaths.Hang | src/utils/index.ts:29 | `??=` on undefined or null stores a fresh, empty `{}` under the key and moves to it; the path stays linked; existing objects other than the one the new objects hang on keep their properties from before the loop |
| KeyPaths.FollowLink | src/utils/index.ts:29 | `??=` on an existing object changes nothing and moves to that object; this happens only while all objects passed are existing ones |
| KeyPaths.SetLast | src/utils/index.ts:31 | the last write stores value under the last piece and keeps every link of the path it does not overwrite; then reading the key from the root gives value |

## Left out

- The `test` handler (mockSystem/src/handler.ts:80-82) only echoes the token claims. It is not modelled.
- The dispatcher, the `Context` transport fields, and async/Promise sequencing are not modelled. Each handler is one sequential step.
- `checkAuthentication`, `verifyToken`, `getTokens`, `randomString` and `formatDto` are not part of this model. They are parameters or symbolic terms, as described above.
- Store internals are not modelled. Ids are strings; the fresh id `insert` gives is one that no stored record has.
- Handlers.Captcha stores its session with `update` under `randomString(16)` (mockSystem/src/handler.ts:66-67), so a colliding id replaces an existing session; the model keeps that behaviour rather than assuming a unique id.
- `update` of a record without an id is not modelled. The handlers always pass one.
- Store failures outside register's `try` are not modelled: every other store call (mockSystem/src/handler.ts:22, 36, 46, 49, 54, 58, 66, 85, 94) always succeeds in the model, whereas a rejection there would propagate uncaught out of the handler.
- Handlers.Login and Handlers.Refresh: a rejecting `getTokens` outside register's `try` is not modelled. A rejection at mockSystem/src/handler.ts:40 (login) or :78 (refresh) escapes the handler uncaught and produces no response, whereas the model's Login and Refresh always answer with the tokens on those paths.
- Bill amounts are `real`, standing for the JavaScript number of `BillItem.amount` (mockSystem/src/types/handler.ts:5); floating-point rounding, NaN and infinities are not modelled.
- Dates are integers. `new Date(data.date)` is the integer date itself, and `new Date()` is a parameter `now`.
- A session without `expireTime` (captcha never sets one) never counts as expired.
- The JSON text of a session's `info` is a `{phone, captcha}` record. Serialisation and parsing themselves are not modelled.
- Handlers.BillList requires `current >= 1` and `pageSize >= 0`. JavaScript's `slice` with negative or fractional bounds is not modelled.
- Handlers.BillList states page bounds with `Mul`, repeated addition on naturals. Handlers.MulIsProduct ties `Mul` to `*`.
- Handlers.Register: the race between the name check and the insert under concurrent requests is not modelled.
- Handlers.CheckCaptcha removes a session on expiry (mockSystem/src/handler.ts:49) and on a match (:54), and keeps it on a wrong code (:53); the model follows the code, so a session is not single-use after a wrong code.
- KeyPaths.SetValueByKey requires that the path meets no primitive and that the target is an object. Assigning a property of a primitive throws in strict mode; those errors are excluded rather than modelled.
- KeyPaths.SetValueByKey: the read-back `getValueByKey(target, key) == value` is proved only when the final write does not overwrite one of the path's own links. That can happen only in a cyclic object graph, e.g. `o.a = o` with key `a.a`.
- KeyPaths.SetValueByKey: for an absent key, `OwnProps` gives a primitive source no properties. JavaScript's `Object.assign` copies a string source's characters as indexed properties; that is not modelled. Non-enumerable properties and getters are not modelled either.
- Prototypes are not modelled: an object's properties are its own properties only. In JavaScript a read in getValueByKey, and the read in setValueByKey's `??=` step (src/utils/index.ts:29), also finds inherited properties; with key `toString.x` the source descends into the inherited function, where the model sees undefined and creates `{}`.
- KeyPaths.CreateObjFromKey: a key piece `__proto__` is not modelled. In JavaScript the write `cur[k] = …` (src/utils/index.ts:18, :20) under `__proto__` calls the inherited prototype setter instead of creating an own property, so for such a key the own-property chain and the read-back do not hold (`createObjFromKey(5, "__proto__")` is `{}`).
- KeyPaths.SetValueByKey: a last key piece `__proto__` is not modelled. The write `cur[last] = value` (src/utils/index.ts:31) then sets the prototype (or does nothing for a primitive value) instead of an own property, so the last-write and read-back facts do not hold for such a key. Through the unmodelled prototype reads, `setValueByKey(t, v, "__proto__.x")` writes `x` onto `Object.prototype`, which every object shares.
- KeyPaths.SetPath: the same `__proto__` gap as SetValueByKey; its last-write and read-back facts assume an own-property write at src/utils/index.ts:31.
- KeyPaths.SetLast: models `cur[last] = value` (src/utils/index.ts:31) as an own-property update, which a last piece `__proto__` does not perform.
- KeyPaths.GetValueByKey: reading a property of a primitive other than undefined or null gives undefined in the model. Properties of primitive wrappers (such as a string's `length`) are not modelled.
- The UI components under src/components and the type-only module mockSystem/src/types/handler.ts hold no logic that is modelled. The bill fields come from the latter.
