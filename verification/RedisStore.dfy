/** Options, as used for nullable values of the original. */
module Options {
  datatype Option<+T> = None | Some(value: T)
}

/**
 * The part of Redis that presence uses: one key space whose entries are sets or
 * strings. A set that loses its last member disappears, and a command applied to an
 * entry of the other type changes nothing (Redis answers WRONGTYPE).
 */
module RedisStore {
  import opened Options

  datatype Entry = Members(members: set<string>) | Text(text: string)

  datatype Command<K> =
    | SAdd(key: K, member: string)
    | SRem(key: K, member: string)
    | SetText(key: K, text: string)
    | Del(key: K)

  function MembersAt<K>(db: map<K, Entry>, key: K): set<string> {
    if key in db && db[key].Members? then db[key].members else {}
  }

  function TextAt<K>(db: map<K, Entry>, key: K): Option<string> {
    if key in db && db[key].Text? then Some(db[key].text) else None
  }

  function Apply<K>(db: map<K, Entry>, cmd: Command<K>): map<K, Entry> {
    match cmd
    case SAdd(key, member) =>
      if key in db && db[key].Text? then db
      else db[key := Members(MembersAt(db, key) + {member})]
    case SRem(key, member) =>
      var rest := MembersAt(db, key) - {member};
      if key !in db || db[key].Text? then db
      else if rest == {} then db - {key}
      else db[key := Members(rest)]
    case SetText(key, text) => db[key := Text(text)]
    case Del(key) => db - {key}
  }

  /** The effect of a committed `MULTI` that queued `cmds`. */
  function ApplyAll<K>(db: map<K, Entry>, cmds: seq<Command<K>>): map<K, Entry>
    decreases |cmds|
  {
    if cmds == [] then db else ApplyAll(Apply(db, cmds[0]), cmds[1..])
  }

  /** No key stands for an empty set. */
  predicate NoEmptySet<K>(db: map<K, Entry>) {
    forall k | k in db :: db[k] != Members({})
  }

  /** Redis never keeps an empty set: what removes the last member removes the key. */
  lemma {:induction false} NeverEmpty<K>(db: map<K, Entry>, cmds: seq<Command<K>>)
    requires NoEmptySet(db)
    ensures NoEmptySet(ApplyAll(db, cmds))
    decreases |cmds|
  {
    if cmds != [] {
      NotEmptied(db, cmds[0]);
      NeverEmpty(Apply(db, cmds[0]), cmds[1..]);
    }
  }

  lemma NotEmptied<K>(db: map<K, Entry>, cmd: Command<K>)
    requires NoEmptySet(db)
    ensures NoEmptySet(Apply(db, cmd))
  {
    if cmd.SAdd? {
      assert cmd.member in MembersAt(db, cmd.key) + {cmd.member};
    }
  }
}
