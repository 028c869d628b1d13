/** Replaying commands over a store that already reflects some of them.

    What a key holds after a run of commands is settled by the last command that touches it;
    a command that is applied again changes nothing that a later command has not settled already.
 */
module Replay {
  import opened Storage

  /** The effect of a run of commands on one key. */
  datatype Write = Untouched | Cleared | Stored(value: string)

  function EffectOf(cmd: Command, key: string): Write {
    match cmd
    case Put(k, value) => if k == key then Stored(value) else Untouched
    case Delete(k) => if k == key then Cleared else Untouched
    case DeletePrefix(prefix) => if InPrefixRange(key, prefix) then Cleared else Untouched
    case Unknown => Untouched
  }

  function LastWrite(cmds: seq<Command>, key: string): Write {
    if cmds == [] then Untouched
    else
      var last := EffectOf(cmds[|cmds| - 1], key);
      if last.Untouched? then LastWrite(cmds[..|cmds| - 1], key) else last
  }

  function Lookup(db: Db, key: string): Write {
    if key in db then Stored(db[key]) else Cleared
  }

  /** The store after a run of commands, key by key. */
  lemma {:induction false} FoldByKey(db: Db, cmds: seq<Command>, key: string)
    ensures Lookup(Fold(db, cmds), key)
            == if LastWrite(cmds, key).Untouched? then Lookup(db, key) else LastWrite(cmds, key)
    decreases |cmds|
  {
    if cmds != [] {
      FoldByKey(db, cmds[..|cmds| - 1], key);
    }
  }

  lemma {:induction false} LastWriteOfConcat(xs: seq<Command>, ys: seq<Command>, key: string)
    ensures LastWrite(xs + ys, key) == if LastWrite(ys, key).Untouched? then LastWrite(xs, key) else LastWrite(ys, key)
    decreases |ys|
  {
    if ys == [] {
      assert xs + ys == xs;
    } else {
      assert (xs + ys)[..|xs + ys| - 1] == xs + ys[..|ys| - 1];
      LastWriteOfConcat(xs, ys[..|ys| - 1], key);
    }
  }

  lemma {:induction false} FoldOfConcat(db: Db, xs: seq<Command>, ys: seq<Command>)
    ensures Fold(db, xs + ys) == Fold(Fold(db, xs), ys)
    decreases |ys|
  {
    if ys == [] {
      assert xs + ys == xs;
    } else {
      assert (xs + ys)[..|xs + ys| - 1] == xs + ys[..|ys| - 1];
      FoldOfConcat(db, xs, ys[..|ys| - 1]);
    }
  }

  lemma SameLookupsSameStore(a: Db, b: Db)
    requires forall key :: Lookup(a, key) == Lookup(b, key)
    ensures a == b
  {
    forall key ensures key in a <==> key in b
               ensures key in a ==> a[key] == b[key] {
      assert Lookup(a, key) == Lookup(b, key);
    }
  }

  /** Applying the tail of a history a second time leaves every key as it was. */
  lemma ReplayIsHarmless(db: Db, xs: seq<Command>, ys: seq<Command>)
    ensures Fold(Fold(db, xs + ys), ys) == Fold(db, xs + ys)
  {
    forall key ensures Lookup(Fold(Fold(db, xs + ys), ys), key) == Lookup(Fold(db, xs + ys), key) {
      FoldByKey(Fold(db, xs + ys), ys, key);
      FoldByKey(db, xs + ys, key);
      LastWriteOfConcat(xs, ys, key);
    }
    SameLookupsSameStore(Fold(Fold(db, xs + ys), ys), Fold(db, xs + ys));
  }

  function KeysWritten(cmds: seq<Command>): set<string> {
    set i | 0 <= i < |cmds| && cmds[i].Put? :: cmds[i].key
  }

  lemma {:induction false} WrittenKeysAreSettled(cmds: seq<Command>, key: string)
    requires key in KeysWritten(cmds)
    ensures !LastWrite(cmds, key).Untouched?
    decreases |cmds|
  {
    var i :| 0 <= i < |cmds| && cmds[i].Put? && cmds[i].key == key;
    if i < |cmds| - 1 {
      assert cmds[..|cmds| - 1][i] == cmds[i];
      WrittenKeysAreSettled(cmds[..|cmds| - 1], key);
    }
  }

  /** A whole log replayed over a store gives the store built from nothing exactly when every key
      of the old store that the log leaves untouched is absent. */
  lemma ReplayFromStartExactly(db: Db, log: seq<Command>)
    ensures Fold(db, log) == Fold(map[], log) <==> forall key :: key in db ==> !LastWrite(log, key).Untouched?
  {
    forall key ensures LastWrite(log, key).Untouched? ==> Lookup(Fold(db, log), key) == Lookup(db, key)
               ensures LastWrite(log, key).Untouched? ==> Lookup(Fold(map[], log), key) == Cleared
               ensures !LastWrite(log, key).Untouched? ==> Lookup(Fold(db, log), key) == Lookup(Fold(map[], log), key) {
      FoldByKey(db, log, key);
      FoldByKey(map[], log, key);
    }
    if forall key :: key in db ==> !LastWrite(log, key).Untouched? {
      SameLookupsSameStore(Fold(db, log), Fold(map[], log));
    }
  }

  /** In particular when all keys of the old store were written by that very log. */
  lemma ReplayFromStart(db: Db, log: seq<Command>)
    requires db.Keys <= KeysWritten(log)
    ensures Fold(db, log) == Fold(map[], log)
  {
    forall key | key in db ensures !LastWrite(log, key).Untouched? { WrittenKeysAreSettled(log, key); }
    ReplayFromStartExactly(db, log);
  }

  /** Two stores that agree on business keys still agree after the same commands. */
  lemma BusinessOfFold(a: Db, b: Db, cmds: seq<Command>)
    requires Business(a) == Business(b)
    ensures Business(Fold(a, cmds)) == Business(Fold(b, cmds))
  {
    forall key | !IsMetaKey(key)
      ensures Lookup(Fold(a, cmds), key) == Lookup(Fold(b, cmds), key) {
      FoldByKey(a, cmds, key);
      FoldByKey(b, cmds, key);
      SameBusinessSameLookup(a, b, key);
    }
    SameLookupsSameBusiness(Fold(a, cmds), Fold(b, cmds));
  }

  lemma SameBusinessSameLookup(a: Db, b: Db, key: string)
    requires Business(a) == Business(b) && !IsMetaKey(key)
    ensures Lookup(a, key) == Lookup(b, key)
  {
    assert key in a <==> key in Business(a);
    assert key in b <==> key in Business(b);
    if key in a {
      assert a[key] == Business(a)[key] && b[key] == Business(b)[key];
    }
  }

  lemma SameLookupsSameBusiness(a: Db, b: Db)
    requires forall key :: !IsMetaKey(key) ==> Lookup(a, key) == Lookup(b, key)
    ensures Business(a) == Business(b)
  {
    forall key ensures key in Business(a) <==> key in Business(b)
               ensures key in Business(a) ==> Business(a)[key] == Business(b)[key] {
      if !IsMetaKey(key) {
        assert Lookup(a, key) == Lookup(b, key);
      }
    }
  }
}
