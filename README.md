# syncwave core, modelled in Dafny

This project models the sequential core of syncwave, a collaborative task board. The core covers:

- **Document value engine.** A `Crdt` document holds a structured value. `from` and `snapshot` map that value onto a replicated node tree and back. Recipes edit a draft of the value, diffs are merged, and listeners are notified. The engine's implementation is not part of this model, so the contract is the one its test file asserts.
- **Byte and collection helpers** from `utils.ts`: lexicographic byte comparison, the prefix test, buffer concatenation, `distinct`, `zip`, `arrayEqual`, `pipe` and the failure rule of `whenAll`. Also the `Subject` subscriber registry.
- **Ordered key-value transaction** of the FoundationDB store, modelled as a sorted sequence of entries:
  - `get`, `put` and `delete`;
  - the mapping of the four query conditions (`gt`, `gte`, `lt`, `lte`) onto a key-selector range and a direction;
  - prefixed views, and the magic first byte 174 that keeps every stored key out of the reserved `0xff` range.
- **Data-layer transaction**: the users and tasks stores live under the disjoint prefixes `users/` and `tasks/`, and the optimistic lock is one blind write.
- **Indexed document repository.** One in-memory model serves all three repositories. It is a map from id to document plus one sorted index table per declared index, with index rows built by an order-preserving, prefix-free key encoding. Instantiated with the declarations of:
  - the `IdentityRepo`: unique email and user id, a schema, the `apply` mask, and the email-taken error;
  - the `MemberRepo`: a unique (user, board) pair, a non-unique board index, and `boardId`/`userId` not writeable;
  - the `TaskRepo`: a unique (board, counter) pair, and only `deleted`, `text` and `title` writeable.
- **Sign-in coordinator**:
  - the activity-window rate limit (`needsCooldown`, `pushActivityLog`);
  - one-time codes (`createVerificationCode`);
  - the decision ladders of `sendSignInEmail` and `verifySignInCode`;
  - the effects queue, which is reset at every transaction attempt.
- **Job context manager**: running jobs with their cancellable contexts, and the set of cancelled jobs.

Timestamps are integers (milliseconds). The clock, random bytes, fresh UUIDs and the two activity-window constants are parameters.

One module per file:

| file | module |
|---|---|
| `wrappers.dfy` | `Wrappers` |
| `lex.dfy` | `Lex` |
| `bytes.dfy` | `Bytes` |
| `utils.dfy` | `Utils` |
| `subject.dfy` | `Subjects` |
| `crdt.dfy` | `Crdt` |
| `sorted.dfy` | `Sorted` |
| `kvstore.dfy` | `KvStore` |
| `datalayer.dfy` | `DataLayer` |
| `keys.dfy` | `IndexKeys` |
| `docrepo.dfy` | `DocRepos` |
| `identity.dfy` | `IdentityRepos` |
| `member.dfy` | `MemberRepos` |
| `task.dfy` | `TaskRepos` |
| `coordinator.dfy` | `Coordinators` |
| `contextmgr.dfy` | `ContextManagers` |

## Model

| member | source | states |
|---|---|---|
| Lex.LessIrreflexive | packages/data/src/utils.ts:257-269 | the byte order is irreflexive |
| Lex.LessTransitive | packages/data/src/utils.ts:257-269 | the byte order is transitive |
| Lex.LessTotal | packages/data/src/utils.ts:257-269 | any two distinct byte strings are ordered one way or the other |
| Lex.PrefixLess | packages/data/src/utils.ts:265-266 | a proper prefix is smaller |
| Lex.LessAppend | packages/data/src/utils.ts:257-269 | a common prefix does not change the order of two keys |
| Lex.LessAtFirstDifference | packages/data/src/utils.ts:260-263 | the first differing byte decides the order |
| Bytes.OrderAntisymmetric | packages/data/src/utils.ts:257-269 | the comparison is 0 iff the arrays are equal, and swapping the arguments negates it |
| Bytes.CompareUint8Array | packages/data/src/utils.ts:257-269 | the result is -1, 0 or 1; 0 iff equal, -1 iff `a` is lexicographically smaller, 1 iff `b` is |
| Bytes.BufStartsWith | packages/data/src/utils.ts:271-274 | true iff the prefix is no longer than the buffer and matches its first bytes |
| Bytes.ConcatBuffers | packages/data/src/utils.ts:230-236 | a fresh buffer of length `a.length + b.length` holding `a` and then `b` |
| Bytes.Utf8Append | packages/common/src/data/data-layer.ts:29 | the string key encoding distributes over concatenation |
| Bytes.Utf8Ascii | packages/common/src/data/data-layer.ts:24-25 | an ASCII string encodes to one byte per character, its code |
| Utils.Distinct | packages/data/src/utils.ts:238-240 | the result has the same elements as the input and no duplicates |
| Utils.DistinctKeepsFirstOccurrenceOrder | packages/data/src/utils.ts:238-240 | elements appear in the order of their first occurrence in the input |
| Utils.Zip | packages/data/src/utils.ts:242-255 | fails iff the lengths differ; otherwise pair `i` is `(a[i], b[i])` |
| Utils.ZipUnzip | packages/data/src/utils.ts:242-255 | projecting the zipped pairs gives back both inputs |
| Utils.ArrayEqual | packages/data/src/utils.ts:284-296 | true iff the lengths and all elements agree, that is iff the arrays are equal |
| Utils.Pipe | packages/data/src/utils.ts:223-228 | feeds the value through the functions left to right; its contract is stated by `PipeSnoc` and `PipeAppend` |
| Utils.PipeSnoc | packages/data/src/utils.ts:223-228 | piping through one more function applies it to the previous result |
| Utils.PipeAppend | packages/data/src/utils.ts:223-228 | piping through two lists is piping through the first and then the second |
| Utils.Rejections | packages/data/src/utils.ts:305-306 | the rejected outcomes: empty iff everything was fulfilled, each one taken from the input |
| Utils.WhenAll | packages/data/src/utils.ts:301-327 | all fulfilled gives the values in input order; one rejection is rethrown; several give the business aggregate iff every reason is a business error, else the generic aggregate |
| Utils.WhenAllSingleRejection | packages/data/src/utils.ts:312-313 | a single rejection among fulfilled outcomes rethrows exactly that reason |
| Utils.RejectionsAppend | packages/data/src/utils.ts:305-306 | rejections are collected in input order |
| Subjects.Without | packages/data/src/utils.ts:42-44 | cancelling a subscription's scope keeps exactly the other wrappers |
| Subjects.WithoutRemovesExactlyOne | packages/data/src/utils.ts:38-44 | with distinct wrappers, exactly that one wrapper is removed and the others keep their order, even for an observer subscribed twice |
| Subjects.WithoutDistinct | packages/data/src/utils.ts:42-44 | filtering keeps wrapper identities distinct |
| Subjects.Subject.AnyObservers | packages/data/src/utils.ts:31-33 | true iff there is a subscription |
| Subjects.Subject.Subscribe | packages/data/src/utils.ts:35-45 | on a closed subject fails and changes nothing; otherwise appends a new wrapper whose identity differs from every earlier one, so `anyObservers` holds |
| Subjects.Subject.CancelScope | packages/data/src/utils.ts:42-44 | the subscriptions become those without the cancelled wrapper |
| Subjects.UntilFailure | packages/data/src/utils.ts:70-72 | an awaiting loop reaches a prefix of the observers: all of them, or up to and including the first whose callback rejects, with none failing before it |
| Subjects.UntilFailureAt | packages/data/src/utils.ts:70-72 | when observer `k` is the first to fail, the loop reaches exactly the first `k + 1`; with no failure it reaches all |
| Subjects.Subject.Deliver | packages/data/src/utils.ts:69-72 | the loop over a copy hands the signal to the observers in subscription order, stopping after the first rejection; it fails iff some observer rejects, with that observer's error |
| Subjects.Subject.Next | packages/data/src/utils.ts:64-73 | closed: fails and calls nobody; otherwise `next(value)` reaches the observers in order up to the first rejection, and `next` fails iff one rejects, with that observer's error |
| Subjects.Subject.Throw | packages/data/src/utils.ts:75-88 | closed: fails and calls nobody; otherwise `throw(error)` reaches the observers in order up to the first rejection, and fails iff one rejects, with that observer's error |
| Subjects.Subject.Close | packages/data/src/utils.ts:90-99 | the subject ends closed; only the first call hands `close()` to every observer, in order |
| Crdt.From | packages/data/src/crdt/crdt.spec.ts:357-365 | `from` fails exactly on values the engine cannot represent (a Date, a Symbol) |
| Crdt.SnapshotOfFrom | packages/data/src/crdt/crdt.spec.ts:10-43 | `snapshot(from(v)) == v` for every representable value, including empty containers, undefined and null |
| Crdt.EncodeRoundTrip | packages/data/src/crdt/crdt.spec.ts:391-399 | decoding the encoding of a value gives the value back |
| Crdt.SnapshotRoundTrip | packages/data/src/crdt/crdt.spec.ts:274-291 | every node's snapshot is representable and maps back to the same node |
| Crdt.SetEntry | packages/data/src/crdt/crdt.spec.ts:161-182 | `set` overwrites an existing key in place and appends a new key at the end |
| Crdt.DeleteEntry | packages/data/src/crdt/crdt.spec.ts:184-202 | `delete` removes exactly that key and keeps every other entry |
| Crdt.DeleteEntryAppend | packages/data/src/crdt/crdt.spec.ts:184-202 | deleting from two runs of entries deletes from each, so the kept entries keep their order |
| Crdt.DeleteEntryAbsent | packages/data/src/crdt/crdt.spec.ts:184-202 | entries without the key are kept whole |
| Crdt.DeleteEntryRemovesOne | packages/data/src/crdt/crdt.spec.ts:184-202 | with distinct keys, deleting removes that one entry and the others close up in insertion order |
| Crdt.Lookup | packages/data/src/crdt/crdt.spec.ts:184-202 | `get`/`has` find a key iff the map has it |
| Crdt.ReplaceReplacesWhole | packages/data/src/crdt/crdt.spec.ts:64-74 | a recipe that returns a value replaces the whole document, including a root string |
| Crdt.FieldEditIsLocal | packages/data/src/crdt/crdt.spec.ts:348-355 | editing one struct field leaves every other field unchanged |
| Crdt.OneFieldEdit | packages/data/src/crdt/crdt.spec.ts:53-62 | a one-field recipe applies the mutation to that field |
| Crdt.ArrayRecipes | packages/data/src/crdt/crdt.spec.ts:87-118 | `push`, `unshift` and index set give `[3,4,5,6]`, `[6,7,3,4,5]` and `[1,1,1,3]` |
| Crdt.MapRecipes | packages/data/src/crdt/crdt.spec.ts:142-202 | map `set` gives `a:v2, b:v1, c:v1`; `delete` leaves `b:v1`; `clear` leaves nothing |
| Crdt.Merge | packages/data/src/crdt/crdt.spec.ts:46-50 | merging a diff keeps one of the two blobs, and never the older one |
| Crdt.MergeIdempotent | packages/data/src/crdt/crdt.spec.ts:46-50 | applying the same diff twice is applying it once |
| Crdt.MergeCommutes | packages/data/src/crdt/crdt.spec.ts:46-50 | two diffs with distinct stamps give the same state in either order |
| Crdt.Fanout | packages/data/src/crdt/crdt.spec.ts:412-458 | one call per live subscription, in subscription order, with the diff and origin passed through |
| Crdt.RemoveSubscription | packages/data/src/crdt/crdt.spec.ts:327-340 | cancelling a scope removes exactly that subscription |
| Crdt.CancelledListenerNotCalled | packages/data/src/crdt/crdt.spec.ts:246-265 | once its only subscription is removed, a listener receives no later diff |
| Crdt.Doc.FromValue | packages/data/src/crdt/crdt.spec.ts:268-283 | `from(v)` fails iff `v` is not representable; otherwise a fresh document whose snapshot is `v` |
| Crdt.Doc.Map | packages/data/src/crdt/crdt.spec.ts:293-298 | `map(fn)` is `fn` of the snapshot |
| Crdt.Doc.MapOfFrom | packages/data/src/crdt/crdt.spec.ts:293-298 | on a document built from `v`, `map(fn)` is `fn(v)` |
| Crdt.Doc.Load | packages/data/src/crdt/crdt.spec.ts:46-62 | `load(state)` gives a document holding exactly that state, with no subscriptions |
| Crdt.Doc.Snapshot | packages/data/src/crdt/crdt.spec.ts:274-291 | the snapshot is always a value `from` accepts, and `from` turns it back into the document's tree |
| Crdt.Doc.State | packages/data/src/crdt/crdt.spec.ts:46-62 | the state carries the document's stamp and a tree whose snapshot is the document's |
| Crdt.Doc.Subscribe | packages/data/src/crdt/crdt.spec.ts:309-325 | appends the subscription and leaves the content alone |
| Crdt.Doc.CancelScope | packages/data/src/crdt/crdt.spec.ts:327-340 | the subscriptions lose exactly the cancelled one |
| Crdt.Doc.Apply | packages/data/src/crdt/crdt.spec.ts:445-458 | the state becomes the merge with the diff, and every live listener is called with the diff and origin |
| Crdt.Doc.Update | packages/data/src/crdt/crdt.spec.ts:300-307 | succeeds iff the recipe runs and yields a representable value; the snapshot becomes the recipe's result under a newer stamp; a failure changes nothing |
| Crdt.UpdateAndReplay | packages/data/src/crdt/crdt.spec.ts:46-62 | a replica loaded from `doc.state()` and subscribed to `doc` ends with doc's state and snapshot after an update; an unsubscribed one is unchanged |
| Sorted.Get | packages/server/src/fdb-kv-store.ts:29-35 | a key is found iff stored, and then its stored value is returned |
| Sorted.GetMember | packages/server/src/fdb-kv-store.ts:29-35 | in an ascending table every entry is what `get` finds for its key |
| Sorted.Insert | packages/server/src/fdb-kv-store.ts:78-80 | `set` keeps the keys ascending and changes exactly the value of that key |
| Sorted.Remove | packages/server/src/fdb-kv-store.ts:82-84 | `clear` keeps the keys ascending and removes exactly that key |
| Sorted.Filter | packages/server/src/fdb-kv-store.ts:69-75 | a range read keeps exactly the entries whose keys qualify |
| Sorted.FilterAscending | packages/server/src/fdb-kv-store.ts:69-75 | a forward range read is in ascending key order |
| Sorted.FilterAppend | packages/server/src/fdb-kv-store.ts:69-75 | a range read over two parts is the concatenation of the two reads |
| Sorted.Reverse | packages/server/src/fdb-kv-store.ts:69 | reversal maps position `i` to position `n-1-i` |
| Sorted.ReverseAscending | packages/server/src/fdb-kv-store.ts:69 | the reverse of an ascending range is descending and has the same entries |
| KvStore.QueryResult | packages/server/src/fdb-kv-store.ts:41-75 | a query yields exactly the stored entries in the condition's range, ascending for `gt`/`gte`, descending for `lt`/`lte` |
| KvStore.MapCondition | packages/server/src/fdb-kv-store.ts:41-67 | `gt`/`gte` read forward and end at `[255]`; `lt`/`lte` read in reverse and start at the empty key |
| KvStore.GtRange | packages/server/src/fdb-kv-store.ts:47-51 | `gt k` covers the keys above `k` and below `[255]`, forward |
| KvStore.GteRange | packages/server/src/fdb-kv-store.ts:52-56 | `gte k` covers `k` and the keys above it, below `[255]`, forward |
| KvStore.LtRange | packages/server/src/fdb-kv-store.ts:57-61 | `lt k` covers the keys below `k`, from the empty key, in reverse |
| KvStore.LteRange | packages/server/src/fdb-kv-store.ts:62-66 | `lte k` covers `k` and the keys below it, in reverse |
| KvStore.Transaction.Get | packages/server/src/fdb-kv-store.ts:29-35 | undefined iff the key is absent, otherwise the stored bytes; recorded as a read |
| KvStore.Transaction.Put | packages/server/src/fdb-kv-store.ts:78-80 | afterwards that key maps to the value and every other key is unchanged |
| KvStore.Transaction.Delete | packages/server/src/fdb-kv-store.ts:82-84 | afterwards that key is absent and every other key is unchanged |
| KvStore.Transaction.Query | packages/server/src/fdb-kv-store.ts:37-76 | the loop yields exactly the range of the mapped condition |
| KvStore.View.Physical | packages/server/src/fdb-kv-store.ts:100-104 | a view's physical key starts with its prefix and continues with the caller's key |
| KvStore.View.Get | packages/server/src/fdb-kv-store.ts:29-35 | reads the physical key |
| KvStore.View.Put | packages/server/src/fdb-kv-store.ts:78-80 | writes the physical key and nothing else |
| KvStore.View.Delete | packages/server/src/fdb-kv-store.ts:82-84 | clears the physical key and nothing else |
| KvStore.View.Query | packages/server/src/fdb-kv-store.ts:37-76 | yields the prefixed range with the prefix stripped, ascending for `gt`/`gte` and descending for `lt`/`lte` |
| KvStore.Strip | packages/server/src/fdb-kv-store.ts:101-104 | unprefixed entries are exactly the prefixed ones with the prefix removed |
| KvStore.StripKeys | packages/server/src/fdb-kv-store.ts:101-104 | every key kept by stripping is the prefix-free part of a stored key |
| KvStore.StripAscending | packages/server/src/fdb-kv-store.ts:101-104 | stripping keeps an ascending table ascending |
| KvStore.StripDescending | packages/server/src/fdb-kv-store.ts:101-104 | stripping keeps a descending table descending |
| KvStore.ViewQueryOrdered | packages/server/src/fdb-kv-store.ts:37-76 | a query through a view is ascending for `gt`/`gte` and descending for `lt`/`lte` |
| KvStore.PrefixedInRange | packages/server/src/fdb-kv-store.ts:41-67 | a prefixed key matching the caller's condition lies in the physical range |
| KvStore.ViewQuerySound | packages/server/src/fdb-kv-store.ts:37-76 | every entry a view yields is stored under the prefix and matches the condition |
| KvStore.ViewQueryComplete | packages/server/src/fdb-kv-store.ts:37-76 | every stored entry under the prefix that matches the condition is yielded |
| KvStore.Transact | packages/server/src/fdb-kv-store.ts:94-107 | the caller's transaction is the native one under the prefix `[174]` |
| KvStore.WithPrefix | packages/common/src/data/data-layer.ts:24-25 | a nested prefix concatenates onto the outer one |
| KvStore.MagicKeysAvoidReservedRange | packages/server/src/fdb-kv-store.ts:19 | every physical key sorts below `[255]` and never starts with `0xff` |
| KvStore.PutThenGet | packages/server/src/fdb-kv-store.ts:78-84 | after `put` a `get` returns the value; after `delete` it returns undefined |
| DataLayer.PrefixesAreUtf8 | packages/common/src/data/data-layer.ts:24-25 | the two store prefixes are the bytes of `users/` and `tasks/` |
| DataLayer.DataLayerTransaction.constructor | packages/common/src/data/data-layer.ts:22-33 | both stores and the lock share the caller's transaction; the stores sit under its prefix followed by `users/` and `tasks/` |
| DataLayer.DataLayerTransaction.OptimisticLock | packages/common/src/data/data-layer.ts:26-31 | exactly one write, of the UUID, at the encoded key under the transaction's own prefix, and no read |
| DataLayer.StoresDisjoint | packages/common/src/data/data-layer.ts:24-25 | no users-store key equals or is under the `tasks/` prefix, and the reverse also holds |
| DataLayer.StoresInvisibleToEachOther | packages/common/src/data/data-layer.ts:24-25 | an entry written through one store never appears in a query through the other |
| IndexKeys.EncodeKeyAppend | packages/data/src/data/repos/identity-repo.ts:43-51 | the row encoding of a key tuple is the concatenation of its parts' encodings |
| IndexKeys.EncodeKeyPrefix | packages/common/src/data/repos/member-repo.ts:67-69 | one encoded tuple is a prefix of another iff the first tuple is a prefix of the second |
| IndexKeys.EncodeKeyInjective | packages/data/src/data/repos/identity-repo.ts:43-51 | distinct key tuples give distinct rows |
| IndexKeys.NumOrder | packages/common/src/data/repos/task-repo.ts:36-39 | behind a common prefix, rows order by the counter |
| DocRepos.RowsEqual | packages/common/src/data/repos/member-repo.ts:35-39 | two rows coincide only for equal keys (unique index) or the same document (non-unique index) |
| DocRepos.UniqueIndexAtMostOne | packages/data/src/data/repos/identity-repo.ts:43-51 | a unique index holds at most one document per key |
| DocRepos.Reindex | packages/common/src/data/repos/task-repo.ts:36-39 | rewriting one document's row keeps the table ascending and changes only that document's rows |
| DocRepos.ReindexAgrees | packages/common/src/data/repos/task-repo.ts:36-39 | after a write without clash the index table agrees with the new documents |
| DocRepos.QueryFacts | packages/common/src/data/repos/member-repo.ts:67-73 | an index query yields exactly the documents whose rows start with the prefix |
| DocRepos.StoreConsistent | packages/common/src/data/repos/task-repo.ts:57-63 | storing a conforming document that clashes with no unique index keeps every document under its own id and every table in agreement |
| DocRepos.Collect | packages/common/src/data/repos/member-repo.ts:67-73 | the walk over an index table collects, in table order, the document of every row that starts with the prefix |
| DocRepos.DocRepo.FirstClash | packages/data/src/data/repos/identity-repo.ts:93-102 | the first unique index, in declaration order, on which another document has the new key |
| DocRepos.DocRepo.GetById | packages/data/src/data/repos/identity-repo.ts:81-83 | the stored document, or undefined for an unknown id |
| DocRepos.DocRepo.GetUnique | packages/data/src/data/repos/identity-repo.ts:85-91 | undefined iff no included document has the key; otherwise the stored document with it |
| DocRepos.DocRepo.Query | packages/common/src/data/repos/member-repo.ts:67-73 | exactly the included documents whose key starts with the prefix, in strictly ascending row order |
| DocRepos.DocRepo.FindClash | packages/data/src/data/repos/identity-repo.ts:93-102 | the loop over the indexes finds the first clash |
| DocRepos.DocRepo.Store | packages/common/src/data/repos/task-repo.ts:57-59 | the document is stored and every index table is rewritten to agree |
| DocRepos.DocRepo.Create | packages/common/src/data/repos/task-repo.ts:57-59 | fails iff the schema, a duplicate id or a unique index clash rejects it, with that error and nothing changed; otherwise stores exactly that document |
| DocRepos.DocRepo.Change | packages/common/src/data/repos/task-repo.ts:61-63 | fails iff the id is unknown, the id changes, the mask refuses a changed field, the schema or a clash rejects it; otherwise the document becomes the recipe's result |
| DocRepos.DocRepo.Update | packages/common/src/data/repos/task-repo.ts:61-63 | `update` is a change checked by the repository's own mask; returns the new document |
| DocRepos.DocRepo.Apply | packages/common/src/data/repos/member-repo.ts:55-57 | `apply` is a change checked by the given mask, or the repository's own when none is given |
| DocRepos.StoredUnique | packages/common/src/data/repos/member-repo.ts:35-38 | two stored documents with the same key on a unique index are the same document |
| DocRepos.SameKeysNoClash | packages/data/src/data/repos/identity-repo.ts:43-51 | rewriting a document without touching its index keys cannot clash |
| IdentityRepos.ApplyMaskAllows | packages/data/src/data/repos/identity-repo.ts:69-79 | `apply` accepts a diff iff it changes no field but email, verification code and activity log |
| IdentityRepos.IdentityRepo.constructor | packages/data/src/data/repos/identity-repo.ts:39-67 | an empty repository over the declared unique `email` index (identities with an email) and unique `userId` index, the schema, and no update checker |
| IdentityRepos.IdentityRepo.GetById | packages/data/src/data/repos/identity-repo.ts:81-83 | the stored identity, or undefined for an unknown id |
| IdentityRepos.IdentityRepo.CreateFailure | packages/data/src/data/repos/identity-repo.ts:93-106 | `create` fails iff the store rejects the identity; an email clash becomes `EmailTaken`, any other error is wrapped unchanged |
| IdentityRepos.IdentityRepo.Apply | packages/data/src/data/repos/identity-repo.ts:69-79 | `apply` checks the diff against that mask; a refused diff changes nothing and rethrows exactly the store's error |
| IdentityRepos.IdentityRepo.GetByEmail | packages/data/src/data/repos/identity-repo.ts:85-87 | undefined iff no identity has the email; otherwise the stored identity with it |
| IdentityRepos.IdentityRepo.GetByUserId | packages/data/src/data/repos/identity-repo.ts:89-91 | undefined iff no identity has the user id; otherwise the stored identity with it |
| IdentityRepos.IdentityRepo.Create | packages/data/src/data/repos/identity-repo.ts:93-106 | an email clash becomes `EmailTaken` with the message and code `identity_email_taken`; every other failure is passed on unchanged; a failure changes nothing |
| IdentityRepos.IdentityRepo.Update | packages/data/src/data/repos/identity-repo.ts:108-110 | `update` has no mask; returns the identity after the recipe, or rethrows exactly the store's error |
| IdentityRepos.EmailUnique | packages/data/src/data/repos/identity-repo.ts:43-47 | at most one identity has a given email |
| IdentityRepos.UserIdUnique | packages/data/src/data/repos/identity-repo.ts:48-51 | at most one identity has a given user id |
| IdentityRepos.EmailClashOnCreate | packages/data/src/data/repos/identity-repo.ts:93-102 | creating an identity with a taken email fails on the email index |
| IdentityRepos.UserIdClashOnCreate | packages/data/src/data/repos/identity-repo.ts:97-104 | with a fresh email, a taken user id fails on the user-id index, which `create` rethrows as it is |
| IdentityRepos.KeysKeptUpdateSucceeds | packages/data/src/data/repos/identity-repo.ts:108-110 | an update that keeps id, email and user id and meets the schema always succeeds |
| MemberRepos.UserRow | packages/common/src/data/repos/member-repo.ts:35-36 | a membership's composite row starts with `[userId]` iff it belongs to that user |
| MemberRepos.BoardRow | packages/common/src/data/repos/member-repo.ts:39 | a membership's board row starts with `[boardId]` iff it is on that board |
| MemberRepos.MemberRepo.constructor | packages/common/src/data/repos/member-repo.ts:30-53 | an empty repository over the unique (userId, boardId) index, the non-unique boardId index, the schema, and the checker that makes `boardId` and `userId` read-only |
| MemberRepos.MemberRepo.Apply | packages/common/src/data/repos/member-repo.ts:55-57 | `apply` uses the repository's own mask; a refused diff changes nothing and rethrows exactly the store's error |
| MemberRepos.MemberRepo.Create | packages/common/src/data/repos/member-repo.ts:59-61 | fails iff the schema, a duplicate id or the pair index rejects it, with exactly that error; otherwise stores the member |
| MemberRepos.MemberRepo.GetById | packages/common/src/data/repos/member-repo.ts:63-65 | the stored member, or undefined |
| MemberRepos.MemberRepo.GetByUserId | packages/common/src/data/repos/member-repo.ts:67-69 | exactly the user's memberships |
| MemberRepos.MemberRepo.GetByBoardId | packages/common/src/data/repos/member-repo.ts:71-73 | exactly the board's memberships, several per board allowed |
| MemberRepos.MemberRepo.GetByUserIdAndBoardId | packages/common/src/data/repos/member-repo.ts:75-77 | undefined iff no member has that pair; otherwise the stored member with it |
| MemberRepos.MemberRepo.Update | packages/common/src/data/repos/member-repo.ts:79-81 | checked by the mask; returns the new member, or rethrows exactly the store's error |
| MemberRepos.OneMembershipPerPair | packages/common/src/data/repos/member-repo.ts:35-38 | at most one member per (user, board) pair |
| MemberRepos.BoardAndUserImmutable | packages/common/src/data/repos/member-repo.ts:41-44 | a change of `boardId` or `userId` is refused with a permission error |
| TaskRepos.MaskAllows | packages/common/src/data/repos/task-repo.ts:41-45 | a change passes the mask iff it touches only `deleted`, `text` and `title` |
| TaskRepos.BoardRow | packages/common/src/data/repos/task-repo.ts:36-37 | a task's row starts with `[boardId]` iff it is on that board |
| TaskRepos.TaskRepo.constructor | packages/common/src/data/repos/task-repo.ts:31-47 | an empty repository over the unique (boardId, counter) index, no schema, and the checker that lets only `deleted`, `text` and `title` change |
| TaskRepos.TaskRepo.GetById | packages/common/src/data/repos/task-repo.ts:49-51 | the stored task, or undefined |
| TaskRepos.TaskRepo.GetByBoardId | packages/common/src/data/repos/task-repo.ts:53-55 | exactly the board's tasks, in strictly increasing counter order |
| TaskRepos.TaskRepo.Create | packages/common/src/data/repos/task-repo.ts:57-59 | fails iff a duplicate id or the (board, counter) index rejects it, with exactly that error; otherwise stores that `Task` |
| TaskRepos.TaskRepo.Update | packages/common/src/data/repos/task-repo.ts:61-63 | checked by the mask; returns the `Task` after the update, or rethrows exactly the store's error |
| TaskRepos.CounterOrder | packages/common/src/data/repos/task-repo.ts:36-39 | two tasks of one board in ascending row order have ascending counters |
| TaskRepos.OneTaskPerCounter | packages/common/src/data/repos/task-repo.ts:36-39 | at most one task per (board, counter) |
| TaskRepos.CounterClashOnCreate | packages/common/src/data/repos/task-repo.ts:57-59 | a second task with a taken (board, counter) fails with the index's unique error |
| TaskRepos.ReadonlyFieldsRejected | packages/common/src/data/repos/task-repo.ts:41-45 | a change of `boardId`, `counter` or `authorId` is refused with a permission error |
| Coordinators.NeedsCooldown | packages/data/src/data/coordinator.ts:198-202 | at least `N` actions after the cutoff; `CooldownMonotone` and `CooldownAfterAllowedAttempts` state its properties |
| Coordinators.Recent | packages/data/src/data/coordinator.ts:200 | the log entries strictly after the cutoff |
| Coordinators.RecentShrinks | packages/data/src/data/coordinator.ts:199-200 | a later cutoff keeps no more entries |
| Coordinators.CooldownMonotone | packages/data/src/data/coordinator.ts:198-202 | a cooldown at some time was already a cooldown at every earlier time |
| Coordinators.RecentKeepsAll | packages/data/src/data/coordinator.ts:200 | a log entirely inside the window is counted whole |
| Coordinators.Slice | packages/data/src/data/coordinator.ts:210-212 | JavaScript `slice(start)`: a suffix, of length `-start` for a negative start |
| Coordinators.PushActivityLog | packages/data/src/data/coordinator.ts:204-214 | a suffix of the old log plus `now`; for a positive limit exactly the last `N` entries of the log with `now` appended; for 0, the log is not truncated |
| Coordinators.LastNOfLastN | packages/data/src/data/coordinator.ts:210-212 | truncating before appending does not change the last entries |
| Coordinators.PushesKeepLast | packages/data/src/data/coordinator.ts:204-214 | successive pushes keep exactly the last `N` timestamps seen |
| Coordinators.CooldownAfterAllowedAttempts | packages/data/src/data/coordinator.ts:198-214 | after `N` recorded attempts inside the window the next check is a cooldown |
| Coordinators.Digit | packages/data/src/data/coordinator.ts:378 | a byte becomes the decimal digit of `byte % 10` |
| Coordinators.CreateVerificationCode | packages/data/src/data/coordinator.ts:372-383 | one digit per random byte, each `byte % 10`, expiring one hour after `now` |
| Coordinators.CodeDeterminedByResidues | packages/data/src/data/coordinator.ts:377-379 | two byte strings give the same code iff their residues mod 10 agree |
| Coordinators.NewIdentity | packages/data/src/data/coordinator.ts:237-246 | an identity created by sign-in has the email, the new code and an empty log |
| Coordinators.Refreshed | packages/data/src/data/coordinator.ts:259-262 | the sign-in update sets the new code and records the attempt, keeping the ids and email |
| Coordinators.Recorded | packages/data/src/data/coordinator.ts:319-321 | the verification update records the attempt and keeps the code |
| Coordinators.SignInComposes | packages/data/src/data/coordinator.ts:230-290 | find-or-create followed by the known-identity step is the whole `sendSignInEmail` outcome |
| Coordinators.Coordinator.FindOrCreate | packages/data/src/data/coordinator.ts:232-253 | the stored identity with the email, or the newcomer once created; a failed creation rethrows exactly the error `create` throws and changes nothing |
| Coordinators.Coordinator.SendSignInEmail | packages/data/src/data/coordinator.ts:223-291 | unknown email with failed creation: the error `create` throws, rethrown; in cooldown: `cooldown`, no update, no effect; otherwise: new code and one log entry stored, one email effect enqueued, `success` |
| Coordinators.Coordinator.StoreRefreshed | packages/data/src/data/coordinator.ts:259-262 | the identity is stored again with the new code and one more log entry; nothing else changes |
| Coordinators.Coordinator.SignInKnown | packages/data/src/data/coordinator.ts:255-290 | the cooldown branch and the update-and-enqueue branch for a known identity |
| Coordinators.Coordinator.VerifySignInCode | packages/data/src/data/coordinator.ts:293-336 | in order: unknown email throws; cooldown; missing code throws; expired code, with no log entry; otherwise one log entry, then `invalid_code` or `success` with the identity and user in the token |
| Coordinators.Coordinator.SendSignInEmailAttempt | packages/data/src/data/coordinator.ts:73-89 | each attempt starts with no effects, and the effects handed back to run after the transaction are exactly this attempt's |
| ContextManagers.ContextManager.Start | packages/data/src/context-manager.ts:10-23 | running: the same context, nothing changes; cancelled: a fresh cancelled context, nothing changes; otherwise a fresh live child context, recorded as running |
| ContextManagers.ContextManager.Cancel | packages/data/src/context-manager.ts:25-35 | running: its context is cancelled and it moves to the cancelled set; otherwise nothing changes |
| ContextManagers.ContextManager.Finish | packages/data/src/context-manager.ts:37-45 | the job leaves both collections, its context cancelled if it was running; an unknown job changes nothing |
| ContextManagers.ContextManager.FinishAll | packages/data/src/context-manager.ts:47-50 | afterwards nothing runs, every formerly running context is cancelled, and the cancelled set is unchanged |

The classes with state to keep consistent carry an invariant `Valid()` that their methods preserve:

- `ContextManager`: no job is both running and cancelled, and running jobs have distinct contexts.
- `DocRepo`: every stored document has its own id and meets the schema, and every index table agrees with the documents.
- `Transaction`: the keys are ascending byte strings.
- `Subject` and `Doc`: every subscription's identity was allocated before, so new ones are fresh.

`Scope`, `View` and `DataLayerTransaction` hold no invariant of their own: their fields are fixed references.

The repositories' `Valid()` (`IdentityRepo`, `MemberRepo`, `TaskRepo`) also fixes the declarations that instantiate their `DocRepo`, and the `Coordinator`'s `Valid()` is that of its identity repository.

## Left out

- The `Crdt` implementation (packages/data/src/crdt/crdt.ts) is not part of this model. Its Yjs merge is modelled as whole-document last-writer-wins on a (clock, client) stamp. Fine-grained concurrent merging of edits is not modelled.
- Numbers are integers. `Date` and `Symbol` stand for the unsupported values.
- `DocRepo`, `data-index.ts`, `update-checker.ts`, `uuid.ts`, `timestamp.ts` and `constants.ts` are not part of this model. Their behaviour is assumed as follows:
  - the repository is in memory, with index rows in an order-preserving, prefix-free encoding of the key tuple;
  - the `d/` key prefix of the repositories is not modelled;
  - a UUID is 16 bytes;
  - `addHours` adds hours in milliseconds;
  - the activity-window constants are parameters;
  - diffs and recipes are functions from document to document.
- DocRepos.DocRepo.Create and DocRepos.DocRepo.Change: the errors `DuplicateId` and `IdChanged` are named by this model, not by the source.
- DocRepos.DocRepo.Change: a field missing from a writeable mask counts as not writeable.
- DocRepos.DocRepo.Apply: when no checker is given, the repository's `updateChecker` is used.
- The `onChange` callbacks and the `createdAt`/`updatedAt` bookkeeping of the repositories are not modelled.
- Rich text is an opaque value.
- `withPrefix`, `withKeySerializer` and `withValueSerializer` come from `kv-store.ts`, which is not part of this model. A prefixed view concatenates the prefixes and strips the prefix from query results.
- `KvStore.View.Query`: for `gt`/`gte` through a view, completeness holds only for physical keys below `[255]`, which the magic byte guarantees.
- FoundationDB's `doTransaction` retry, isolation and conflict detection are not modelled. A transaction is one sequential ordered map with a trace of reads, writes, clears and scans. An aborted attempt's writes are not rolled back in the model; only the effects reset is modelled.
- Async scheduling, `await` interleavings, timers, streams and logging are not modelled. This covers `wait`, `interval`, `ignoreCancel`, `whenAny`, `observable`, `Subject.value$` and the `console.warn` calls.
- Coordinators.Coordinator.SendSignInEmail: `ctx.users.create`, which runs beside the identity creation, is not modelled (the users store is outside this core). A handler call reads one `now` for every `getNow()`. The email bodies and `emailService.send` are not modelled; an effect records the recipient and code.
- Coordinators.Coordinator.VerifySignInCode: the JWT signer, the token's `exp`/`iat` and the secret are not modelled; the token is only its payload (subject and user id).
- `issueJwtByUserEmail`, the RPC wiring, the `dbApi` handler table, transports and client proxies are not modelled.
- ContextManagers.ContextManager.FinishAll: finishes the snapshot's jobs in an unspecified order, whereas JavaScript `Map` iterates in insertion order. The final state is the same for every order.
- ContextManagers.ContextManager.Start: the child context's link to the parent context, and cancellation from the parent, are not modelled.
- Coordinators.PushActivityLog: above the allowed count the log is cut to `slice(-N)`, so an allowed count of 0 keeps the whole log (`-0` is `0`). This follows the code.
- Utils.ArrayEqual: elements are compared by value, where `!==` compares objects by reference; the two agree on the numbers and bytes the source compares.
- Which observer callbacks reject is a parameter of `Subject.next` and `Subject.throw`; `close()` is synchronous and is taken to return normally.
