/** Private storage of the modules: a lazily filled cache in front of one file per module, which
    is replaced atomically. Ids and keys are UTF-8 bytes; JSON is a parameter. */
module Storage {
  import opened Bytes

  const MAX_NAMESPACE_BYTES := 4 * 1024 * 1024
  const MAX_KEY_BYTES := 256

  type Name = seq<byte>
  type Namespace<V> = map<Name, V>

  datatype StorageError = InvalidKey | QuotaExceeded | Corrupt | Io

  datatype Result<+T> = Ok(value: T) | Err(error: StorageError)

  /** Encoding of a whole namespace. */
  datatype Json<!V> = Json(toVec: Namespace<V> -> seq<byte>, fromSlice: seq<byte> -> Option<Namespace<V>>)

  ghost predicate SoundCodec<V(!new)>(json: Json<V>)
  {
    forall n :: json.fromSlice(json.toVec(n)) == Some(n)
  }

  predicate KeyAccepted(key: Name) { 0 < |key| <= MAX_KEY_BYTES }

  /** Where writing a file goes wrong. A failed write may leave anything in the temporary file. */
  datatype Fault = Nowhere | AtDirectory | AtWrite(partial: seq<byte>) | AtRename

  /** What a module's file holds. */
  function Loaded<V>(json: Json<V>, files: map<Name, seq<byte>>, id: Name): Result<Namespace<V>>
  {
    if id !in files then Ok(map[])
    else match json.fromSlice(files[id])
      case None => Err(Corrupt)
      case Some(n) => Ok(n)
  }

  // ---- the order of keys ----

  predicate Less(a: Name, b: Name)
    decreases |a|
  {
    b != [] && (a == [] || a[0] < b[0] || (a[0] == b[0] && Less(a[1..], b[1..])))
  }

  lemma {:induction false} LessTotal(a: Name, b: Name)
    ensures a == b || Less(a, b) || Less(b, a)
    ensures !(Less(a, b) && Less(b, a))
    decreases |a|
  {
    if a != [] && b != [] && a[0] == b[0] {
      LessTotal(a[1..], b[1..]);
      assert a == [a[0]] + a[1..] && b == [b[0]] + b[1..];
    }
  }

  lemma {:induction false} LessTransitive(a: Name, b: Name, c: Name)
    requires Less(a, b) && Less(b, c)
    ensures Less(a, c)
    decreases |a|
  {
    if a != [] && a[0] == b[0] && b[0] == c[0] {
      LessTransitive(a[1..], b[1..], c[1..]);
    }
  }

  /** The order of names is that of the first byte in which they differ, and a name comes
      before those that it begins. */
  lemma {:induction false} LessExactly(a: Name, b: Name)
    ensures Less(a, b) <==> exists k: nat :: FirstDifference(a, b, k)
    decreases |a|
  {
    if a != [] && b != [] && a[0] == b[0] {
      LessExactly(a[1..], b[1..]);
      forall k: nat | k > 0 ensures FirstDifference(a, b, k) <==> FirstDifference(a[1..], b[1..], k - 1) {
        DifferenceInTail(a, b, k);
      }
      if Less(a, b) {
        var k: nat :| FirstDifference(a[1..], b[1..], k);
        assert FirstDifference(a, b, k + 1);
      }
    } else if Less(a, b) {
      assert FirstDifference(a, b, 0);
    }
  }

  /** `a` and `b` agree on `k` bytes; then `a` ends, or has the smaller byte. */
  ghost predicate FirstDifference(a: Name, b: Name, k: nat)
  {
    k <= |a| && k < |b| && a[..k] == b[..k] && (k == |a| || a[k] < b[k])
  }

  lemma DifferenceInTail(a: Name, b: Name, k: nat)
    requires a != [] && b != [] && a[0] == b[0] && k > 0
    ensures FirstDifference(a, b, k) <==> FirstDifference(a[1..], b[1..], k - 1)
  {
    if k <= |a| && k <= |b| {
      assert a[..k] == [a[0]] + a[1..][..k - 1] && b[..k] == [b[0]] + b[1..][..k - 1];
      assert a[1..][..k - 1] == a[..k][1..] && b[1..][..k - 1] == b[..k][1..];
    }
  }

  ghost predicate Sorted(keys: seq<Name>)
  {
    forall i, j :: 0 <= i < j < |keys| ==> Less(keys[i], keys[j])
  }

  predicate IsFirst(k: Name, keys: set<Name>)
  {
    k in keys && forall o :: o in keys && o != k ==> Less(k, o)
  }

  lemma {:induction false} FirstExists(keys: set<Name>)
    requires keys != {}
    ensures exists k :: IsFirst(k, keys)
    decreases |keys|
  {
    var k :| k in keys;
    var rest := keys - {k};
    assert forall o :: o in keys && o != k ==> o in rest;
    if rest == {} {
      assert IsFirst(k, keys);
    } else {
      FirstExists(rest);
      var f :| IsFirst(f, rest);
      LessTotal(k, f);
      if Less(k, f) {
        forall o | o in keys && o != k ensures Less(k, o) {
          if o != f {
            LessTransitive(k, f, o);
          }
        }
        assert IsFirst(k, keys);
      } else {
        assert IsFirst(f, keys);
      }
    }
  }

  /** The keys with a prefix, in order. */
  method SortedKeys(keys: set<Name>, prefix: Name) returns (r: seq<Name>)
    ensures Sorted(r)
    ensures forall k :: k in r <==> k in keys && prefix <= k
  {
    r := [];
    var rest := keys;
    while rest != {}
      invariant rest <= keys && Sorted(r)
      invariant forall k :: k in r <==> k in keys - rest && prefix <= k
      invariant forall k, o :: k in keys - rest && o in rest ==> Less(k, o)
      decreases |rest|
    {
      FirstExists(rest);
      var first :| IsFirst(first, rest);
      if prefix <= first {
        r := r + [first];
      }
      rest := rest - {first};
    }
  }

  // ---- the files ----

  /** One file and one temporary file per module. */
  datatype DiskState = DiskState(files: map<Name, seq<byte>>, temporary: map<Name, seq<byte>>)

  /** While the temporary file is written it holds one prefix of the bytes after the other. */
  function Written(s: DiskState, id: Name, bytes: seq<byte>): (r: seq<DiskState>)
    ensures |r| == |bytes| + 1 && r[|bytes|] == s.(temporary := s.temporary[id := bytes])
    ensures forall k :: 0 <= k < |r| ==> r[k].files == s.files
  {
    assert bytes[..|bytes|] == bytes;
    seq(|bytes| + 1, k requires 0 <= k <= |bytes| => s.(temporary := s.temporary[id := bytes[..k]]))
  }

  /** `history` holds every state that the files have been in: a crash leaves one of them. */
  class Disk {
    var state: DiskState
    ghost var history: seq<DiskState>

    constructor (state: DiskState)
      ensures Valid() && this.state == state && history == [state]
    {
      this.state := state;
      history := [state];
    }

    ghost predicate Valid()
      reads this
    {
      history != [] && history[|history| - 1] == state
    }

    method WriteTemporary(id: Name, bytes: seq<byte>)
      requires Valid()
      modifies this
      ensures Valid() && history == old(history) + Written(old(state), id, bytes)
      ensures state == old(state).(temporary := old(state).temporary[id := bytes])
    {
      history := history + Written(state, id, bytes);
      state := state.(temporary := state.temporary[id := bytes]);
    }

    /** Replaces the file at once. */
    method Rename(id: Name)
      requires Valid() && id in state.temporary
      modifies this
      ensures Valid() && history == old(history) + [state]
      ensures state == DiskState(old(state).files[id := old(state).temporary[id]], old(state).temporary - {id})
    {
      state := DiskState(state.files[id := state.temporary[id]], state.temporary - {id});
      history := history + [state];
    }
  }

  class ModuleStorage<V(!new)> {
    const json: Json<V>
    const disk: Disk
    var cache: map<Name, Namespace<V>>

    /** Opening the storage reads nothing. */
    constructor (json: Json<V>, disk: Disk)
      requires SoundCodec(json) && disk.Valid()
      ensures Valid() && this.json == json && this.disk == disk && cache == map[]
    {
      this.json := json;
      this.disk := disk;
      cache := map[];
    }

    /** The cache agrees with the files. */
    ghost predicate Valid()
      reads this, disk
    {
      SoundCodec(json) && disk.Valid() && forall id :: id in cache ==> Loaded(json, disk.state.files, id) == Ok(cache[id])
    }

    /** What module `id` has stored, or why it cannot be read. */
    ghost function View(id: Name): Result<Namespace<V>>
      reads this, disk
    {
      Loaded(json, disk.state.files, id)
    }

    /** Fills the cache for `id`; the file is read at most once. */
    method NamespaceOf(id: Name, readFails: bool) returns (r: Result<Namespace<V>>)
      requires Valid()
      modifies this`cache
      ensures Valid()
      ensures r == if id !in old(cache) && readFails then Err(Io)
                   else if id !in disk.state.files then Ok(map[])
                   else match json.fromSlice(disk.state.files[id])
                     case None => Err(Corrupt)
                     case Some(n) => Ok(n)
      ensures id in old(cache) || !readFails ==> r == View(id)
      ensures r.Ok? ==> cache == old(cache)[id := r.value]
      ensures r.Err? ==> cache == old(cache)
    {
      if id in cache { return Ok(cache[id]); }
      if readFails { return Err(Io); }
      if id !in disk.state.files {
        r := Ok(map[]);
      } else {
        var parsed := json.fromSlice(disk.state.files[id]);
        if parsed.None? { return Err(Corrupt); }
        r := Ok(parsed.value);
      }
      cache := cache[id := r.value];
    }

    /** Writes the temporary file, then renames it. */
    method Persist(id: Name, encoded: seq<byte>, fault: Fault) returns (r: Result<()>)
      requires disk.Valid()
      modifies disk
      ensures disk.Valid()
      ensures r == if fault.Nowhere? then Ok(()) else Err(Io)
      ensures disk.state.files == if fault.Nowhere? then old(disk.state).files[id := encoded] else old(disk.state).files
      ensures disk.state.temporary == match fault
                                      case AtDirectory => old(disk.state).temporary
                                      case AtWrite(partial) => old(disk.state).temporary[id := partial]
                                      case AtRename => old(disk.state).temporary[id := encoded]
                                      case Nowhere => old(disk.state).temporary - {id}
      ensures disk.history == old(disk.history) + Passed(old(disk.state), id, encoded, fault)
    {
      if fault.AtDirectory? { return Err(Io); }
      if fault.AtWrite? {
        disk.WriteTemporary(id, fault.partial);
        return Err(Io);
      }
      disk.WriteTemporary(id, encoded);
      if fault.AtRename? { return Err(Io); }
      disk.Rename(id);
      r := Ok(());
    }

    method Get(id: Name, key: Name, readFails: bool) returns (r: Result<Option<V>>)
      requires Valid()
      modifies this`cache
      ensures Valid()
      ensures r == if !(1 <= |key| <= 256) then Err(InvalidKey)
                   else if id !in old(cache) && readFails then Err(Io)
                   else match View(id)
                     case Err(e) => Err(e)
                     case Ok(n) => Ok(if key in n then Some(n[key]) else None)
    {
      if !KeyAccepted(key) { return Err(InvalidKey); }
      var n := NamespaceOf(id, readFails);
      if n.Err? { return Err(n.error); }
      r := Ok(if key in n.value then Some(n.value[key]) else None);
    }

    /** What `set` and `remove` have in common: persist first, then let the cache follow. */
    method Replace(id: Name, candidate: Namespace<V>, fault: Fault) returns (r: Result<()>)
      requires Valid() && id in cache
      modifies this`cache, disk
      ensures Valid()
      ensures r == if fault.Nowhere? then Ok(()) else Err(Io)
      ensures View(id) == if fault.Nowhere? then Ok(candidate) else old(View(id))
      ensures forall other :: other != id ==> View(other) == old(View(other))
      ensures cache == if fault.Nowhere? then old(cache)[id := candidate] else old(cache)
      ensures disk.history == old(disk.history) + Passed(old(disk.state), id, json.toVec(candidate), fault)
    {
      PassedKeepsOrReplaces(json, disk.state, id, candidate, fault);
      r := Persist(id, json.toVec(candidate), fault);
      if r.Ok? {
        cache := cache[id := candidate];
      }
    }

    /** `set` refines the update of one map. Refused or failed, it changes nothing that can be read;
        other modules are never affected; and the files pass exactly the states given. */
    method Set(id: Name, key: Name, value: V, readFails: bool, fault: Fault) returns (r: Result<()>)
      requires Valid()
      modifies this`cache, disk
      ensures Valid()
      ensures !(1 <= |key| <= 256) ==> r == Err(InvalidKey)
      ensures 1 <= |key| <= 256 && id !in old(cache) && readFails ==> r == Err(Io)
      ensures 1 <= |key| <= 256 && (id in old(cache) || !readFails) ==>
                match old(View(id))
                case Err(e) => r == Err(e)
                case Ok(n) =>
                  r == if |json.toVec(n[key := value])| > 4194304 then Err(QuotaExceeded)
                       else if fault.Nowhere? then Ok(()) else Err(Io)
      ensures View(id) == if r.Ok? then Ok(old(View(id)).value[key := value]) else old(View(id))
      ensures forall other :: other != id ==> View(other) == old(View(other))
      ensures disk.history == old(disk.history) +
                              if 1 <= |key| <= 256 && (id in old(cache) || !readFails) && old(View(id)).Ok?
                                 && |json.toVec(old(View(id)).value[key := value])| <= 4194304
                              then Passed(old(disk.state), id, json.toVec(old(View(id)).value[key := value]), fault)
                              else []
    {
      if !KeyAccepted(key) { return Err(InvalidKey); }
      var n := NamespaceOf(id, readFails);
      if n.Err? { return Err(n.error); }
      var candidate := n.value[key := value];
      if |json.toVec(candidate)| > MAX_NAMESPACE_BYTES { return Err(QuotaExceeded); }
      r := Replace(id, candidate, fault);
    }

    /** `remove` likewise, and it tells whether the key was there. */
    method Remove(id: Name, key: Name, readFails: bool, fault: Fault) returns (r: Result<bool>)
      requires Valid()
      modifies this`cache, disk
      ensures Valid()
      ensures !(1 <= |key| <= 256) ==> r == Err(InvalidKey)
      ensures 1 <= |key| <= 256 && id !in old(cache) && readFails ==> r == Err(Io)
      ensures 1 <= |key| <= 256 && (id in old(cache) || !readFails) ==>
                match old(View(id))
                case Err(e) => r == Err(e)
                case Ok(n) => r == if key !in n then Ok(false) else if fault.Nowhere? then Ok(true) else Err(Io)
      ensures View(id) == if r == Ok(true) then Ok(old(View(id)).value - {key}) else old(View(id))
      ensures forall other :: other != id ==> View(other) == old(View(other))
      ensures disk.history == old(disk.history) +
                              if 1 <= |key| <= 256 && (id in old(cache) || !readFails) && old(View(id)).Ok? && key in old(View(id)).value
                              then Passed(old(disk.state), id, json.toVec(old(View(id)).value - {key}), fault)
                              else []
    {
      if !KeyAccepted(key) { return Err(InvalidKey); }
      var n := NamespaceOf(id, readFails);
      if n.Err? { return Err(n.error); }
      if key !in n.value { return Ok(false); }
      var done := Replace(id, n.value - {key}, fault);
      r := if done.Ok? then Ok(true) else Err(done.error);
    }

    method List(id: Name, prefix: Name, readFails: bool) returns (r: Result<seq<Name>>)
      requires Valid()
      modifies this`cache
      ensures Valid()
      ensures r.Err? <==> (id !in old(cache) && readFails) || View(id).Err?
      ensures r.Err? ==> r.error == if id !in old(cache) && readFails then Io else View(id).error
      ensures r.Ok? ==> Sorted(r.value) && forall k :: k in r.value <==> k in View(id).value && prefix <= k
    {
      var n := NamespaceOf(id, readFails);
      if n.Err? { return Err(n.error); }
      var keys := SortedKeys(n.value.Keys, prefix);
      r := Ok(keys);
    }
  }

  // ---- crash points ----

  /** The states that the files pass while a namespace is written. */
  function Passed(s: DiskState, id: Name, encoded: seq<byte>, fault: Fault): seq<DiskState>
  {
    match fault
    case AtDirectory => []
    case AtWrite(partial) => Written(s, id, partial)
    case AtRename => Written(s, id, encoded)
    case Nowhere => Written(s, id, encoded) + [DiskState(s.files[id := encoded], s.temporary[id := encoded] - {id})]
  }

  /** Reopening on files `f`: module `id` has either what it had or `candidate`, and every other
      module what it had. */
  ghost predicate CrashSafe<V(!new)>(json: Json<V>, f: map<Name, seq<byte>>, before: map<Name, seq<byte>>, id: Name, candidate: Namespace<V>)
  {
    && (Loaded(json, f, id) == Loaded(json, before, id) || Loaded(json, f, id) == Ok(candidate))
    && forall other :: other != id ==> Loaded(json, f, other) == Loaded(json, before, other)
  }

  /** At every crash point the files hold the map of before or after; at the end, that of after
      exactly when nothing has gone wrong. */
  lemma PassedKeepsOrReplaces<V(!new)>(json: Json<V>, s: DiskState, id: Name, candidate: Namespace<V>, fault: Fault)
    requires SoundCodec(json)
    ensures var passed := [s] + Passed(s, id, json.toVec(candidate), fault);
            && (forall k :: 0 <= k < |passed| ==> CrashSafe(json, passed[k].files, s.files, id, candidate))
            && Loaded(json, passed[|passed| - 1].files, id) == if fault.Nowhere? then Ok(candidate) else Loaded(json, s.files, id)
  {
  }

  /** Opening the storage on what a crash has left. */
  method Reopen<V(!new)>(json: Json<V>, crashed: DiskState) returns (storage: ModuleStorage<V>)
    requires SoundCodec(json)
    ensures storage.Valid() && fresh(storage) && fresh(storage.disk)
    ensures forall id :: storage.View(id) == Loaded(json, crashed.files, id)
  {
    var disk := new Disk(crashed);
    storage := new ModuleStorage(json, disk);
  }

  /** Main result for a crash during `set`: reopened on any state that the files have been in since
      the call began, the storage shows the map of before or of after, and the other modules
      are untouched. */
  method CrashDuringSet<V(!new)>(storage: ModuleStorage<V>, id: Name, key: Name, value: V, readFails: bool, fault: Fault, crashed: DiskState)
    returns (reopened: ModuleStorage<V>)
    requires storage.Valid()
    modifies storage, storage.disk
    ensures reopened.Valid() && old(storage.disk.history) <= storage.disk.history
    ensures crashed in storage.disk.history[|old(storage.disk.history)| - 1..] ==>
              && (reopened.View(id) == old(storage.View(id))
                  || (old(storage.View(id)).Ok? && reopened.View(id) == Ok(old(storage.View(id)).value[key := value])))
              && forall other :: other != id ==> reopened.View(other) == old(storage.View(other))
  {
    ghost var s, n, view := storage.disk.state, |storage.disk.history|, storage.View(id);
    var r := storage.Set(id, key, value, readFails, fault);
    if view.Ok? {
      PassedKeepsOrReplaces(storage.json, s, id, view.value[key := value], fault);
      SinceThen(storage.disk.history, n, s, Passed(s, id, storage.json.toVec(view.value[key := value]), fault), crashed);
    }
    reopened := Reopen(storage.json, crashed);
  }

  /** And for a crash during `remove`. */
  method CrashDuringRemove<V(!new)>(storage: ModuleStorage<V>, id: Name, key: Name, readFails: bool, fault: Fault, crashed: DiskState)
    returns (reopened: ModuleStorage<V>)
    requires storage.Valid()
    modifies storage, storage.disk
    ensures reopened.Valid() && old(storage.disk.history) <= storage.disk.history
    ensures crashed in storage.disk.history[|old(storage.disk.history)| - 1..] ==>
              && (reopened.View(id) == old(storage.View(id))
                  || (old(storage.View(id)).Ok? && reopened.View(id) == Ok(old(storage.View(id)).value - {key})))
              && forall other :: other != id ==> reopened.View(other) == old(storage.View(other))
  {
    ghost var s, n, view := storage.disk.state, |storage.disk.history|, storage.View(id);
    var r := storage.Remove(id, key, readFails, fault);
    if view.Ok? {
      PassedKeepsOrReplaces(storage.json, s, id, view.value - {key}, fault);
      SinceThen(storage.disk.history, n, s, Passed(s, id, storage.json.toVec(view.value - {key}), fault), crashed);
    }
    reopened := Reopen(storage.json, crashed);
  }

  /** The states since a moment: the one at that moment, then those passed, if any. */
  lemma SinceThen(history: seq<DiskState>, n: nat, s: DiskState, passed: seq<DiskState>, crashed: DiskState)
    requires 0 < n <= |history| && history[n - 1] == s
    requires history[n..] == passed || history[n..] == []
    ensures crashed in history[n - 1..] ==> exists k :: 0 <= k < |[s] + passed| && ([s] + passed)[k] == crashed
  {
    assert history[n - 1..] == [s] + history[n..];
    if crashed in history[n - 1..] {
      var k :| 0 <= k < |history[n - 1..]| && history[n - 1..][k] == crashed;
      assert ([s] + passed)[k] == crashed;
    }
  }
}
