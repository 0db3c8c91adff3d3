/**
 * The data-layer transaction of packages/common/src/data/data-layer.ts: the users and tasks
 * stores are views of the one caller transaction under the key prefixes `users/` and
 * `tasks/`, and `optimisticLock` is a single blind put of a fresh UUID at the un-prefixed key.
 */
module DataLayer {
  import Lex
  import opened Bytes
  import opened Sorted
  import opened Wrappers
  import opened KvStore

  /** The UTF-8 bytes of `users/` and `tasks/`. */
  const UsersPrefix: Bytes := [117, 115, 101, 114, 115, 47]
  const TasksPrefix: Bytes := [116, 97, 115, 107, 115, 47]

  lemma PrefixesAreUtf8()
    ensures UsersPrefix == Utf8("users/")
    ensures TasksPrefix == Utf8("tasks/")
  {
    Utf8Ascii("users/");
    Utf8Ascii("tasks/");
  }

  /** The object handed to the callback of `transaction`. */
  class DataLayerTransaction {
    /** The caller's key-value transaction. */
    const txn: View
    const users: View
    const tasks: View

    /** Builds the stores over `txn`, which they and the lock share. */
    constructor (txn: View)
      ensures this.txn == txn
      ensures users.txn == txn.txn && users.prefix == txn.prefix + UsersPrefix
      ensures tasks.txn == txn.txn && tasks.prefix == txn.prefix + TasksPrefix
    {
      this.txn := txn;
      users := new View(txn.txn, txn.prefix + UsersPrefix);
      tasks := new View(txn.txn, txn.prefix + TasksPrefix);
    }

    /**
     * `optimisticLock(key)`: the key serialized as UTF-8 on the caller's transaction itself
     * (no store prefix), the value a freshly created UUID in its serialized form.
     */
    method OptimisticLock(key: string, uuid: Bytes)
      requires txn.txn.Valid()
      modifies txn.txn
      ensures txn.txn.Valid()
      ensures txn.txn.trace == old(txn.txn.trace) + [Write(txn.prefix + Utf8(key), uuid)]
      ensures forall k :: Sorted.Get(txn.txn.entries, k) == (if k == txn.prefix + Utf8(key) then Some(uuid) else Sorted.Get(old(txn.txn.entries), k))
    {
      txn.Put(Utf8(key), uuid);
    }
  }

  /** Under the first byte of the two prefixes, no key of one store is a key of the other. */
  lemma StoresDisjoint(root: Bytes, a: seq<int>, b: seq<int>)
    ensures root + UsersPrefix + a != root + TasksPrefix + b
    ensures !Lex.IsPrefix(root + TasksPrefix, root + UsersPrefix + a)
    ensures !Lex.IsPrefix(root + UsersPrefix, root + TasksPrefix + b)
  {
    assert (root + UsersPrefix + a)[|root|] == 117;
    assert (root + TasksPrefix + b)[|root|] == 116;
    assert (root + TasksPrefix)[|root|] == 116;
    assert (root + UsersPrefix)[|root|] == 117;
  }

  /** A query through the `tasks/` store never yields an entry the users store wrote, and the reverse. */
  lemma StoresInvisibleToEachOther<V>(entries: seq<Entry<V>>, root: Bytes, c: Condition, k: Bytes, v: V)
    ensures Entry(root + UsersPrefix + k, v) in entries ==>
      forall i :: 0 <= i < |ViewRange(entries, root + TasksPrefix, c)| ==>
        (root + TasksPrefix) + ViewRange(entries, root + TasksPrefix, c)[i].key != root + UsersPrefix + k
    ensures Entry(root + TasksPrefix + k, v) in entries ==>
      forall i :: 0 <= i < |ViewRange(entries, root + UsersPrefix, c)| ==>
        (root + UsersPrefix) + ViewRange(entries, root + UsersPrefix, c)[i].key != root + TasksPrefix + k
  {
    forall i | 0 <= i < |ViewRange(entries, root + TasksPrefix, c)|
      ensures (root + TasksPrefix) + ViewRange(entries, root + TasksPrefix, c)[i].key != root + UsersPrefix + k
    {
      StoresDisjoint(root, k, ViewRange(entries, root + TasksPrefix, c)[i].key);
      assert root + TasksPrefix + ViewRange(entries, root + TasksPrefix, c)[i].key
        == (root + TasksPrefix) + ViewRange(entries, root + TasksPrefix, c)[i].key;
    }
    forall i | 0 <= i < |ViewRange(entries, root + UsersPrefix, c)|
      ensures (root + UsersPrefix) + ViewRange(entries, root + UsersPrefix, c)[i].key != root + TasksPrefix + k
    {
      StoresDisjoint(root, ViewRange(entries, root + UsersPrefix, c)[i].key, k);
    }
  }
}
