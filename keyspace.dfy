/**
 * The keyspace of one database: every key's type tag, one store per type, the
 * time-to-live of keys, and a version counter per key that every change to a
 * key raises (transactions compare these counters to detect changes). Lists
 * are pushed and popped at either end; a list that becomes empty is deleted.
 *
 * `Keyspace` is the value of one database; the functions below say what each
 * operation makes of it, and the class `RedisDB` performs the same operations
 * in place, proved against those functions.
 */
module Keyspace {

  import opened Common

  /** TTLs are kept but never interpreted here. */
  type Duration = int

  /** The type tags a key can carry. */
  const KnownTypes: set<string> := {"string", "hash", "list", "set", "zset", "stream"}

  datatype Keyspace = Keyspace(
    id: int,
    keys: map<string, string>,                   // key -> type tag
    stringKeys: map<string, string>,
    hashKeys: map<string, map<string, string>>,
    listKeys: map<string, seq<string>>,
    setKeys: map<string, set<string>>,
    ttl: map<string, Duration>,
    keyVersion: map<string, nat>)

  /** `k` is present and tagged `t`. */
  predicate TaggedAs(ks: Keyspace, k: string, t: string) {
    k in ks.keys && ks.keys[k] == t
  }

  /**
   * The keyspace invariant: every tag is a known type, and a key is in a
   * typed store exactly when it is present with that store's tag (sorted
   * sets and streams have no store here).
   */
  ghost predicate WellFormed(ks: Keyspace) {
    Typed(ks.keys, ks.stringKeys, ks.hashKeys, ks.listKeys, ks.setKeys)
  }

  /** The invariant on the tag map and the typed stores alone; TTLs and versions play no part. */
  ghost predicate Typed(keys: map<string, string>, strings: map<string, string>,
                        hashes: map<string, map<string, string>>, lists: map<string, seq<string>>,
                        sets: map<string, set<string>>)
  {
    && (forall k :: k in keys ==> keys[k] in KnownTypes)
    && (forall k :: k in strings <==> k in keys && keys[k] == "string")
    && (forall k :: k in hashes <==> k in keys && keys[k] == "hash")
    && (forall k :: k in lists <==> k in keys && keys[k] == "list")
    && (forall k :: k in sets <==> k in keys && keys[k] == "set")
  }

  /** exists */
  function HasKey(ks: Keyspace, k: string): bool {
    k in ks.keys
  }

  /** t: the type tag of `k`, or the empty string when `k` is absent. */
  function TagOf(ks: Keyspace, k: string): string {
    if k in ks.keys then ks.keys[k] else ""
  }

  /** A key's version; a key never changed has version 0. */
  function Version(ks: Keyspace, k: string): nat {
    if k in ks.keyVersion then ks.keyVersion[k] else 0
  }

  /** The list stored under `k`; a key without a list reads as the empty list. */
  function ListOf(ks: Keyspace, k: string): seq<string> {
    if k in ks.listKeys then ks.listKeys[k] else []
  }

  /** The entry of `j` in `m`, or None when `m` has none. */
  function Entry<V>(m: map<string, V>, j: string): Option<V> {
    if j in m then Some(m[j]) else None
  }

  /** `j` has the same tag, stored value, TTL and version in `a` and in `b`. */
  ghost predicate SameEntry(a: Keyspace, b: Keyspace, j: string) {
    && Entry(a.keys, j) == Entry(b.keys, j)
    && Entry(a.stringKeys, j) == Entry(b.stringKeys, j)
    && Entry(a.hashKeys, j) == Entry(b.hashKeys, j)
    && Entry(a.listKeys, j) == Entry(b.listKeys, j)
    && Entry(a.setKeys, j) == Entry(b.setKeys, j)
    && Entry(a.ttl, j) == Entry(b.ttl, j)
    && Version(a, j) == Version(b, j)
  }

  /** `keyVersion[k]++` */
  function Bump(ks: Keyspace, k: string): (r: Keyspace)
    ensures Version(r, k) == Version(ks, k) + 1
    ensures forall j :: j != k ==> Version(r, j) == Version(ks, j)
  {
    ks.(keyVersion := ks.keyVersion[k := Version(ks, k) + 1])
  }

  /** Every key's version in `b` is at least its version in `a`. */
  ghost predicate VersionsGrow(a: Keyspace, b: Keyspace) {
    forall k :: Version(a, k) <= Version(b, k)
  }

  lemma VersionsGrowTransitive(a: Keyspace, b: Keyspace, c: Keyspace)
    requires VersionsGrow(a, b) && VersionsGrow(b, c)
    ensures VersionsGrow(a, c)
  {
  }

  /** newRedisDB: a database with the given id and every map empty. */
  function NewKeyspace(id: int): (ks: Keyspace)
    ensures WellFormed(ks) && ks.id == id
    ensures forall k :: !HasKey(ks, k) && Version(ks, k) == 0 && k !in ks.ttl
  {
    Keyspace(id, map[], map[], map[], map[], map[], map[], map[])
  }

  /**
   * del: nothing happens to an absent key. A present key loses its tag and
   * its entry in the store its tag names, its TTL when `delTTL`, and its
   * version goes up by one.
   */
  function Deleted(ks: Keyspace, k: string, delTTL: bool): Keyspace
  {
    if k !in ks.keys then ks
    else
      var t := ks.keys[k];
      Keyspace(
        ks.id,
        ks.keys - {k},
        Without(ks.stringKeys, k, t == "string"),
        Without(ks.hashKeys, k, t == "hash"),
        Without(ks.listKeys, k, t == "list"),
        Without(ks.setKeys, k, t == "set"),
        Without(ks.ttl, k, delTTL),
        ks.keyVersion[k := Version(ks, k) + 1])  // "zset" and "stream" have no store
  }

  /** `m` without the entry for `k` when `on`, `m` itself otherwise. */
  function Without<V>(m: map<string, V>, k: string, on: bool): map<string, V>
  {
    if on then m - {k} else m
  }

  /** listLpush: `v` goes in front of the list of `k`, which is created when missing. */
  function LeftPushed(ks: Keyspace, k: string, v: string): (r: (Keyspace, nat))
  {
    var l := ListOf(ks, k);
    var ks1 := if k !in ks.listKeys then ks.(keys := ks.keys[k := "list"]) else ks;
    (Bump(ks1.(listKeys := ks1.listKeys[k := [v] + l]), k), |l| + 1)
  }

  /**
   * listLpop: takes the first element. The rest is stored, or the key is
   * deleted when nothing is left; either way the version is raised once more
   * after that.
   */
  function LeftPopped(ks: Keyspace, k: string): (r: (Keyspace, string))
    requires |ListOf(ks, k)| > 0
  {
    var l := ListOf(ks, k);
    var rest := l[1..];
    var ks1 := if |rest| == 0 then Deleted(ks, k, true) else ks.(listKeys := ks.listKeys[k := rest]);
    (Bump(ks1, k), l[0])
  }

  /**
   * listPop: takes the last element. The rest is stored with the version
   * raised, or the key is deleted (which raises the version) when nothing is left.
   */
  function RightPopped(ks: Keyspace, k: string): (r: (Keyspace, string))
    requires |ListOf(ks, k)| > 0
  {
    var l := ListOf(ks, k);
    var rest := l[..|l| - 1];
    if |rest| == 0 then (Deleted(ks, k, true), l[|l| - 1])
    else (Bump(ks.(listKeys := ks.listKeys[k := rest]), k), l[|l| - 1])
  }

  // ----- properties of the operations -----

  /** del of an absent key changes nothing, its version included. */
  lemma DeleteAbsentIsNoOp(ks: Keyspace, k: string, delTTL: bool)
    requires WellFormed(ks) && !HasKey(ks, k)
    ensures Deleted(ks, k, delTTL) == ks
  {
  }

  /**
   * del of a present key removes it from the tag map and from the store its
   * tag names, raises its version by exactly one, drops its TTL exactly when
   * asked, and leaves every other key's list, version and TTL as they were
   * (DeleteLeavesOtherEntries gives the other stores).
   */
  lemma DeletePresent(ks: Keyspace, k: string, delTTL: bool)
    requires WellFormed(ks) && HasKey(ks, k)
    ensures var r := Deleted(ks, k, delTTL);
      && !HasKey(r, k)
      && k !in r.stringKeys && k !in r.hashKeys && k !in r.listKeys && k !in r.setKeys
      && Version(r, k) == Version(ks, k) + 1
      && (k in r.ttl <==> k in ks.ttl && !delTTL)
      && r.keys == ks.keys - {k}
      && (forall j :: j != k ==> Version(r, j) == Version(ks, j))
      && (forall j :: j != k ==> ListOf(r, j) == ListOf(ks, j))
      && (forall j :: j != k ==> (j in r.ttl <==> j in ks.ttl) && (j in ks.ttl ==> r.ttl[j] == ks.ttl[j]))
  {
  }

  /**
   * del of a present key leaves every other entry of every store where it
   * was: each typed store loses at most the entry for `k`, the TTL map loses
   * exactly that entry when `delTTL` and nothing otherwise.
   */
  lemma DeleteLeavesOtherEntries(ks: Keyspace, k: string, delTTL: bool)
    requires WellFormed(ks) && HasKey(ks, k)
    ensures var r := Deleted(ks, k, delTTL);
      && r.id == ks.id
      && r.stringKeys == ks.stringKeys - {k}
      && r.hashKeys == ks.hashKeys - {k}
      && r.listKeys == ks.listKeys - {k}
      && r.setKeys == ks.setKeys - {k}
      && r.ttl == (if delTTL then ks.ttl - {k} else ks.ttl)
  {
    var t := ks.keys[k];
    if t != "string" { assert ks.stringKeys - {k} == ks.stringKeys; }
    if t != "hash" { assert ks.hashKeys - {k} == ks.hashKeys; }
    if t != "list" { assert ks.listKeys - {k} == ks.listKeys; }
    if t != "set" { assert ks.setKeys - {k} == ks.setKeys; }
  }

  lemma DeletedWellFormed(ks: Keyspace, k: string, delTTL: bool)
    requires WellFormed(ks)
    ensures WellFormed(Deleted(ks, k, delTTL))
  {
    if k in ks.keys {
      TypedDeleted(ks.keys, ks.stringKeys, ks.hashKeys, ks.listKeys, ks.setKeys, k);
    }
  }

  lemma TypedDeleted(keys: map<string, string>, strings: map<string, string>,
                     hashes: map<string, map<string, string>>, lists: map<string, seq<string>>,
                     sets: map<string, set<string>>, k: string)
    requires Typed(keys, strings, hashes, lists, sets) && k in keys
    ensures var t := keys[k];
      Typed(keys - {k}, Without(strings, k, t == "string"), Without(hashes, k, t == "hash"),
            Without(lists, k, t == "list"), Without(sets, k, t == "set"))
  {
  }

  /**
   * listLpush makes the list `[v] ++ old`, returns its new length, raises the
   * version by one and tags a key that had no list as a list.
   */
  lemma LeftPushedSpec(ks: Keyspace, k: string, v: string)
    requires WellFormed(ks) && (HasKey(ks, k) ==> TaggedAs(ks, k, "list"))
    ensures var (r, n) := LeftPushed(ks, k, v);
      && ListOf(r, k) == [v] + ListOf(ks, k)
      && n == |ListOf(ks, k)| + 1 == |ListOf(r, k)|
      && Version(r, k) == Version(ks, k) + 1
      && TaggedAs(r, k, "list")
      && (forall j :: j != k ==> Version(r, j) == Version(ks, j) && ListOf(r, j) == ListOf(ks, j))
      && (forall j :: j != k ==> (HasKey(r, j) <==> HasKey(ks, j)))
  {
  }

  lemma LeftPushedWellFormed(ks: Keyspace, k: string, v: string)
    requires WellFormed(ks) && (HasKey(ks, k) ==> TaggedAs(ks, k, "list"))
    ensures WellFormed(LeftPushed(ks, k, v).0)
  {
    if k in ks.listKeys {
      StoredList(ks, k, [v] + ks.listKeys[k]);
    } else {
      AddedList(ks, k, [v]);
    }
  }

  /** Creating a list under an absent key keeps the keyspace well formed. */
  lemma AddedList(ks: Keyspace, k: string, l: seq<string>)
    requires WellFormed(ks) && !HasKey(ks, k)
    ensures WellFormed(Bump(ks.(keys := ks.keys[k := "list"], listKeys := ks.listKeys[k := l]), k))
  {
    TypedAddedList(ks.keys, ks.stringKeys, ks.hashKeys, ks.listKeys, ks.setKeys, k, l);
  }

  lemma TypedAddedList(keys: map<string, string>, strings: map<string, string>,
                       hashes: map<string, map<string, string>>, lists: map<string, seq<string>>,
                       sets: map<string, set<string>>, k: string, l: seq<string>)
    requires Typed(keys, strings, hashes, lists, sets) && k !in keys
    ensures Typed(keys[k := "list"], strings, hashes, lists[k := l], sets)
  {
  }

  /**
   * listLpop returns the first element; the tail stays stored, or the key is
   * gone when the tail is empty. The version rises by one when elements
   * remain and by two when the list empties (once in del, once after it).
   */
  lemma LeftPoppedSpec(ks: Keyspace, k: string)
    requires WellFormed(ks) && |ListOf(ks, k)| > 0
    ensures var (r, el) := LeftPopped(ks, k);
      && el == ListOf(ks, k)[0]
      && ListOf(r, k) == ListOf(ks, k)[1..]
      && (|ListOf(ks, k)| > 1 ==> TaggedAs(r, k, "list") && Version(r, k) == Version(ks, k) + 1)
      && (|ListOf(ks, k)| == 1 ==> !HasKey(r, k) && Version(r, k) == Version(ks, k) + 2)
      && (forall j :: j != k ==> Version(r, j) == Version(ks, j) && ListOf(r, j) == ListOf(ks, j))
      && WellFormed(r)
  {
    if |ListOf(ks, k)| == 1 {
      DeletePresent(ks, k, true);
      DeletedWellFormed(ks, k, true);
    }
  }

  /**
   * listPop returns the last element; the prefix stays stored with the
   * version raised by one, or the key is deleted, which raises it by one.
   */
  lemma RightPoppedSpec(ks: Keyspace, k: string)
    requires WellFormed(ks) && |ListOf(ks, k)| > 0
    ensures var (r, el) := RightPopped(ks, k);
      && var l := ListOf(ks, k);
      && el == l[|l| - 1]
      && ListOf(r, k) == l[..|l| - 1]
      && Version(r, k) == Version(ks, k) + 1
      && (|l| > 1 ==> TaggedAs(r, k, "list"))
      && (|l| == 1 ==> !HasKey(r, k))
      && (forall j :: j != k ==> Version(r, j) == Version(ks, j) && ListOf(r, j) == ListOf(ks, j))
      && WellFormed(r)
  {
    if |ListOf(ks, k)| == 1 {
      DeletePresent(ks, k, true);
      DeletedWellFormed(ks, k, true);
    }
  }

  /**
   * listLpush touches only `k`: every other key keeps its tag, its stored
   * value, its TTL and its version, and the TTL of `k` is kept.
   */
  lemma LeftPushedKeepsOthers(ks: Keyspace, k: string, v: string)
    requires WellFormed(ks) && (HasKey(ks, k) ==> TaggedAs(ks, k, "list"))
    ensures var r := LeftPushed(ks, k, v).0;
      && Entry(r.ttl, k) == Entry(ks.ttl, k)
      && forall j :: j != k ==> SameEntry(r, ks, j)
  {
  }

  /**
   * listLpop touches only `k`: every other key keeps its tag, its stored
   * value, its TTL and its version. The TTL of `k` is dropped exactly when
   * the list empties and the key is deleted.
   */
  lemma LeftPoppedKeepsOthers(ks: Keyspace, k: string)
    requires WellFormed(ks) && |ListOf(ks, k)| > 0
    ensures var r := LeftPopped(ks, k).0;
      && Entry(r.ttl, k) == (if |ListOf(ks, k)| == 1 then None else Entry(ks.ttl, k))
      && forall j :: j != k ==> SameEntry(r, ks, j)
  {
  }

  /**
   * listPop touches only `k`: every other key keeps its tag, its stored
   * value, its TTL and its version. The TTL of `k` is dropped exactly when
   * the list empties and the key is deleted.
   */
  lemma RightPoppedKeepsOthers(ks: Keyspace, k: string)
    requires WellFormed(ks) && |ListOf(ks, k)| > 0
    ensures var r := RightPopped(ks, k).0;
      && Entry(r.ttl, k) == (if |ListOf(ks, k)| == 1 then None else Entry(ks.ttl, k))
      && forall j :: j != k ==> SameEntry(r, ks, j)
  {
  }

  /**
   * Writing a new list `l` back under a list key, and raising its version,
   * keeps the keyspace well formed (StoredListShape gives what changes).
   */
  lemma StoredList(ks: Keyspace, k: string, l: seq<string>)
    requires WellFormed(ks) && TaggedAs(ks, k, "list")
    ensures WellFormed(Bump(ks.(listKeys := ks.listKeys[k := l]), k))
  {
    TypedStoredList(ks.keys, ks.stringKeys, ks.hashKeys, ks.listKeys, ks.setKeys, k, l);
  }

  lemma TypedStoredList(keys: map<string, string>, strings: map<string, string>,
                        hashes: map<string, map<string, string>>, lists: map<string, seq<string>>,
                        sets: map<string, set<string>>, k: string, l: seq<string>)
    requires Typed(keys, strings, hashes, lists, sets) && k in keys && keys[k] == "list"
    ensures Typed(keys, strings, hashes, lists[k := l], sets)
  {
  }

  /** The same write, seen from the list and version of each key. */
  lemma StoredListShape(ks: Keyspace, k: string, l: seq<string>)
    requires TaggedAs(ks, k, "list")
    ensures var r := Bump(ks.(listKeys := ks.listKeys[k := l]), k);
      && ListOf(r, k) == l && TaggedAs(r, k, "list")
      && Version(r, k) == Version(ks, k) + 1
      && (forall j :: j != k ==> ListOf(r, j) == ListOf(ks, j) && Version(r, j) == Version(ks, j))
  {
  }

  /** No operation on the keyspace ever lowers a version. */
  lemma VersionsNeverDecrease(ks: Keyspace, k: string, v: string, delTTL: bool)
    ensures VersionsGrow(ks, Deleted(ks, k, delTTL))
    ensures VersionsGrow(ks, LeftPushed(ks, k, v).0)
    ensures |ListOf(ks, k)| > 0 ==> VersionsGrow(ks, LeftPopped(ks, k).0)
    ensures |ListOf(ks, k)| > 0 ==> VersionsGrow(ks, RightPopped(ks, k).0)
  {
    DeletedGrows(ks, k, delTTL);
    if |ListOf(ks, k)| > 0 {
      DeletedGrows(ks, k, true);
      var l := ListOf(ks, k);
      var popped := ks.(listKeys := ks.listKeys[k := l[1..]]);
      assert VersionsGrow(ks, popped);
      VersionsGrowTransitive(ks, Deleted(ks, k, true), Bump(Deleted(ks, k, true), k));
      var dropped := ks.(listKeys := ks.listKeys[k := l[..|l| - 1]]);
      assert VersionsGrow(ks, dropped);
    }
  }

  /** del raises the deleted key's version and leaves every other version alone. */
  lemma DeletedGrows(ks: Keyspace, k: string, delTTL: bool)
    ensures VersionsGrow(ks, Deleted(ks, k, delTTL))
  {
  }

  // ----- the database object -----

  class RedisDB {
    const id: int
    var keys: map<string, string>
    var stringKeys: map<string, string>
    var hashKeys: map<string, map<string, string>>
    var listKeys: map<string, seq<string>>
    var setKeys: map<string, set<string>>
    var ttl: map<string, Duration>
    var keyVersion: map<string, nat>

    /** The database as a value. */
    ghost function Snapshot(): Keyspace
      reads this
    {
      Keyspace(id, keys, stringKeys, hashKeys, listKeys, setKeys, ttl, keyVersion)
    }

    ghost predicate Valid()
      reads this
    {
      WellFormed(Snapshot())
    }

    /** newRedisDB */
    constructor (id: int)
      ensures Snapshot() == NewKeyspace(id) && Valid()
    {
      this.id := id;
      keys, stringKeys, hashKeys, listKeys, setKeys, ttl, keyVersion :=
        map[], map[], map[], map[], map[], map[], map[];
    }

    /** exists */
    function Exists(k: string): (b: bool)
      reads this
      ensures b == HasKey(Snapshot(), k)
    {
      k in keys
    }

    /** t: the key's type tag; the empty string for an absent key. */
    function T(k: string): (t: string)
      reads this
      ensures t == TagOf(Snapshot(), k)
      ensures Valid() && Exists(k) ==> t in KnownTypes
      ensures !Exists(k) ==> t == ""
    {
      if k in keys then keys[k] else ""
    }

    /** del */
    method Del(k: string, delTTL: bool)
      requires Valid()
      modifies this
      ensures Valid()
      ensures Snapshot() == Deleted(old(Snapshot()), k, delTTL)
    {
      if !Exists(k) {
        return;
      }
      ghost var ks0 := Snapshot();
      var t := T(k);
      keys := keys - {k};
      keyVersion := keyVersion[k := (if k in keyVersion then keyVersion[k] else 0) + 1];
      if delTTL {
        ttl := ttl - {k};
      }
      DropFromStore(k, t);
      assert Snapshot() == Deleted(ks0, k, delTTL);
      DeletedWellFormed(ks0, k, delTTL);
    }

    /** The type switch of del: removes `k` from the store that tag `t` names. */
    method DropFromStore(k: string, t: string)
      requires t in KnownTypes
      modifies this
      ensures keys == old(keys) && ttl == old(ttl) && keyVersion == old(keyVersion)
      ensures stringKeys == Without(old(stringKeys), k, t == "string")
      ensures hashKeys == Without(old(hashKeys), k, t == "hash")
      ensures listKeys == Without(old(listKeys), k, t == "list")
      ensures setKeys == Without(old(setKeys), k, t == "set")
    {
      if t == "string" {
        stringKeys := stringKeys - {k};
      } else if t == "hash" {
        hashKeys := hashKeys - {k};
      } else if t == "list" {
        listKeys := listKeys - {k};
      } else if t == "set" {
        setKeys := setKeys - {k};
      } else if t == "zset" {
      } else if t == "stream" {
      } else {
        assert false;  // "Unknown key type": no other tag is ever stored
      }
    }

    /** Stores `l` as the list of list key `k` and raises its version. */
    method StoreList(k: string, l: seq<string>)
      requires Valid() && k in keys && keys[k] == "list"
      modifies this
      ensures Valid()
      ensures Snapshot() == Bump(old(Snapshot()).(listKeys := old(listKeys)[k := l]), k)
    {
      ghost var ks0 := Snapshot();
      listKeys := listKeys[k := l];
      keyVersion := keyVersion[k := (if k in keyVersion then keyVersion[k] else 0) + 1];
      assert Snapshot() == Bump(ks0.(listKeys := ks0.listKeys[k := l]), k);
      StoredList(ks0, k, l);
    }

    /** listLpush: returns the new length. */
    method ListLpush(k: string, v: string) returns (n: nat)
      requires Valid() && (Exists(k) ==> T(k) == "list")
      modifies this
      ensures Valid()
      ensures (Snapshot(), n) == LeftPushed(old(Snapshot()), k, v)
    {
      ghost var ks0 := Snapshot();
      var l: seq<string>;
      if k in listKeys {
        l := [v] + listKeys[k];
        StoreList(k, l);
      } else {
        l := [v];
        assert l == [v] + ListOf(ks0, k);
        CreateList(k, l);  // tags the key "list", then stores
      }
      n := |l|;
    }

    /** The missing-key branch of listLpush: tags `k` as a list, stores `l` and raises the version. */
    method CreateList(k: string, l: seq<string>)
      requires Valid() && k !in keys
      modifies this
      ensures Valid()
      ensures Snapshot() == Bump(old(Snapshot()).(keys := old(keys)[k := "list"], listKeys := old(listKeys)[k := l]), k)
    {
      ghost var ks0 := Snapshot();
      keys := keys[k := "list"];
      listKeys := listKeys[k := l];
      keyVersion := keyVersion[k := (if k in keyVersion then keyVersion[k] else 0) + 1];
      assert Snapshot() == Bump(ks0.(keys := ks0.keys[k := "list"], listKeys := ks0.listKeys[k := l]), k);
      AddedList(ks0, k, l);
    }

    /** listLpop: 'left pop', aka shift. */
    method ListLpop(k: string) returns (el: string)
      requires Valid() && k in listKeys && |listKeys[k]| > 0
      modifies this
      ensures Valid()
      ensures (Snapshot(), el) == LeftPopped(old(Snapshot()), k)
    {
      var l := listKeys[k];
      el := l[0];
      l := l[1..];
      if |l| == 0 {
        Del(k, true);
        keyVersion := keyVersion[k := (if k in keyVersion then keyVersion[k] else 0) + 1];
      } else {
        StoreList(k, l);  // the store, and the version raise that follows it
      }
    }

    /** listPop: 'right pop'. */
    method ListPop(k: string) returns (el: string)
      requires Valid() && k in listKeys && |listKeys[k]| > 0
      modifies this
      ensures Valid()
      ensures (Snapshot(), el) == RightPopped(old(Snapshot()), k)
    {
      var l := listKeys[k];
      el := l[|l| - 1];
      l := l[..|l| - 1];
      if |l| == 0 {
        Del(k, true);
      } else {
        StoreList(k, l);
      }
    }
  }

  /** The root server state: the databases created so far, by id. */
  class ShinyRedis {
    var dbs: map<int, RedisDB>

    /** Each database is filed under its own id and is well formed. */
    ghost predicate Valid()
      reads this, dbs.Values
    {
      && (forall i :: i in dbs ==> dbs[i].id == i)
      && (forall db :: db in dbs.Values ==> db.Valid())
    }

    /** Database `i` as a value; one not created yet reads as a new, empty one. */
    ghost function DbState(i: int): Keyspace
      reads this, dbs.Values
    {
      if i in dbs then dbs[i].Snapshot() else NewKeyspace(i)
    }

    constructor ()
      ensures dbs == map[] && Valid()
    {
      dbs := map[];
    }

    /**
     * db: the database with id `i`, created empty and recorded on first use;
     * the other databases are untouched.
     */
    method Db(i: int) returns (db: RedisDB)
      requires Valid()
      modifies this
      ensures Valid()
      ensures i in dbs && db == dbs[i] && db.id == i && db.Valid()
      ensures i in old(dbs) ==> db == old(dbs[i]) && dbs == old(dbs)
      ensures i !in old(dbs) ==> fresh(db) && dbs == old(dbs)[i := db]
      ensures forall j :: DbState(j) == old(DbState(j))
    {
      if i in dbs {
        return dbs[i];
      }
      db := new RedisDB(i);
      dbs := dbs[i := db];
    }
  }
}
