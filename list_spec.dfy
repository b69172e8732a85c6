/**
 * What the list commands BLPOP, BRPOP, BRPOPLPUSH, LINDEX, LINSERT and LLEN
 * do, as functions of the database and connection state: the argument checks
 * made before anything is touched, the try predicates of the blocking
 * commands, the steps of the others, and how a step is run at once or queued
 * in a transaction.
 */
module ListSpec {

  import opened Common
  import opened Keyspace
  import opened Connection

  const WrongNumber: string := "errWrongNumber(cmd)"
  const WrongType: string := "msgWrongType"

  /** The outcome of checking a command's arguments, before any state is touched. */
  datatype Checked<T> = Reject(replies: seq<Reply>) | Accept(value: T)

  // ----- argument checks -----

  /**
   * BLPOP/BRPOP key [key ...] timeout: at least two arguments, else a
   * wrong-number error; the last must be an integer that is not negative,
   * else the command stops without a reply.
   */
  function CheckBXpop(args: seq<string>): (r: Checked<(seq<string>, int)>)
    ensures |args| < 2 <==> r == Reject([Error(WrongNumber)])
    ensures r == Reject([]) <==>
      |args| >= 2 && (Atoi(args[|args| - 1]).None? || Atoi(args[|args| - 1]).value < 0)
    ensures r.Accept? ==>
      |args| >= 2 && r.value.0 == args[..|args| - 1]
      && Atoi(args[|args| - 1]) == Some(r.value.1) && r.value.1 >= 0
  {
    if |args| < 2 then Reject([Error(WrongNumber)])
    else
      var timeout := Atoi(args[|args| - 1]);
      if timeout.None? || timeout.value < 0 then Reject([])
      else Accept((args[..|args| - 1], timeout.value))
  }

  /** BRPOPLPUSH source destination timeout, with the same timeout rule. */
  function CheckBrpoplpush(args: seq<string>): (r: Checked<(string, string, int)>)
    ensures |args| != 3 <==> r == Reject([Error(WrongNumber)])
    ensures r == Reject([]) <==> |args| == 3 && (Atoi(args[2]).None? || Atoi(args[2]).value < 0)
    ensures r.Accept? ==>
      |args| == 3 && r.value.0 == args[0] && r.value.1 == args[1]
      && Atoi(args[2]) == Some(r.value.2) && r.value.2 >= 0
  {
    if |args| != 3 then Reject([Error(WrongNumber)])
    else
      var timeout := Atoi(args[2]);
      if timeout.None? || timeout.value < 0 then Reject([])
      else Accept((args[0], args[1], timeout.value))
  }

  /** LINDEX key index: the index must be an integer, and not written "-0". */
  function CheckLindex(args: seq<string>): (r: Checked<Step>)
    ensures |args| != 2 <==> r == Reject([Error("errWrongNumber")])
    ensures r == Reject([Error("msgInvalidInt")]) <==>
      |args| == 2 && (Atoi(args[1]).None? || args[1] == "-0")
    ensures r.Accept? ==>
      |args| == 2 && Atoi(args[1]).Some?
      && r.value == LindexStep(args[0], Atoi(args[1]).value)
  {
    if |args| != 2 then Reject([Error("errWrongNumber")])
    else
      var offset := Atoi(args[1]);
      if offset.None? || args[1] == "-0" then Reject([Error("msgInvalidInt")])
      else Accept(LindexStep(args[0], offset.value))
  }

  /** "-0" is refused by LINDEX although it reads as the integer 0; "0" and "+0" are accepted. */
  lemma LindexRefusesNegativeZero(key: string)
    ensures Atoi("-0") == Some(0)
    ensures CheckLindex([key, "-0"]) == Reject([Error("msgInvalidInt")])
    ensures CheckLindex([key, "0"]) == Accept(LindexStep(key, 0))
    ensures CheckLindex([key, "+0"]) == Accept(LindexStep(key, 0))
  {
    AtoiNegativeZero();
  }

  /**
   * LINSERT key BEFORE|AFTER pivot value: the position word is matched
   * without regard to case; -1 stands for before and +1 for after.
   */
  function CheckLinsert(args: seq<string>): (r: Checked<Step>)
    ensures |args| != 4 <==> r == Reject([Error(WrongNumber)])
    ensures r == Reject([Error("msgSyntaxError")]) <==>
      |args| == 4 && Lower(args[1]) != "before" && Lower(args[1]) != "after"
    ensures r.Accept? ==>
      |args| == 4 && r.value.LinsertStep?
      && r.value.key == args[0] && r.value.pivot == args[2] && r.value.value == args[3]
      && (r.value.where == -1 <==> Lower(args[1]) == "before")
      && (r.value.where == 1 <==> Lower(args[1]) == "after")
  {
    if |args| != 4 then Reject([Error(WrongNumber)])
    else
      var w := Lower(args[1]);
      if w == "before" then Accept(LinsertStep(args[0], -1, args[2], args[3]))
      else if w == "after" then Accept(LinsertStep(args[0], 1, args[2], args[3]))
      else Reject([Error("msgSyntaxError")])
  }

  /** Position words that differ only in case are the same position. */
  lemma LinsertWordIgnoresCase(args: seq<string>, word: string)
    requires |args| == 4 && Lower(word) == Lower(args[1])
    ensures CheckLinsert(args[1 := word]) == CheckLinsert(args)
  {
    assert args[1 := word][1] == word;
  }

  /** LLEN key */
  function CheckLlen(args: seq<string>): (r: Checked<Step>)
    ensures |args| != 1 <==> r.Reject?
    ensures r.Reject? ==> r.replies == [Error(WrongNumber)]
    ensures r.Accept? ==> r.value == LlenStep(args[0])
  {
    if |args| != 1 then Reject([Error(WrongNumber)]) else Accept(LlenStep(args[0]))
  }

  // ----- BLPOP / BRPOP: the try predicate -----

  /** A key where the scan stops: present, and either not a list or a non-empty list. */
  predicate Stops(ks: Keyspace, key: string) {
    HasKey(ks, key) && (TagOf(ks, key) != "list" || |ListOf(ks, key)| > 0)
  }

  /** Position of the first key where the scan stops, or |keys| when it stops nowhere. */
  function FirstStop(ks: Keyspace, keys: seq<string>): (i: nat)
    ensures i <= |keys|
    ensures forall j :: 0 <= j < i ==> !Stops(ks, keys[j])
    ensures i < |keys| ==> Stops(ks, keys[i])
  {
    if keys == [] then 0
    else if Stops(ks, keys[0]) then 0
    else 1 + FirstStop(ks, keys[1..])
  }

  /** Pop at the requested end. */
  function Popped(ks: Keyspace, key: string, lr: Lr): (Keyspace, string)
    requires |ListOf(ks, key)| > 0
  {
    if lr == Left then LeftPopped(ks, key) else RightPopped(ks, key)
  }

  /**
   * The BLPOP/BRPOP try: the new database, the replies, and whether the
   * command is done. Keys are tried in argument order; the first present key
   * that is not a list ends it with a wrong-type error, the first non-empty
   * list is popped and its element replied.
   */
  function PopTryResult(ks: Keyspace, keys: seq<string>, lr: Lr): (Keyspace, seq<Reply>, bool)
  {
    var i := FirstStop(ks, keys);
    if i == |keys| then (ks, [], false)
    else if TagOf(ks, keys[i]) != "list" then (ks, [Error(WrongType)], true)
    else
      var (ks1, v) := Popped(ks, keys[i], lr);
      (ks1, [Bulk(v)], true)
  }

  /** The try is not done, and changes nothing, exactly when every key is absent or an empty list. */
  lemma PopTryNotDone(ks: Keyspace, keys: seq<string>, lr: Lr)
    ensures !PopTryResult(ks, keys, lr).2 <==>
      forall j :: 0 <= j < |keys| ==> !HasKey(ks, keys[j]) || (TagOf(ks, keys[j]) == "list" && |ListOf(ks, keys[j])| == 0)
    ensures !PopTryResult(ks, keys, lr).2 ==> PopTryResult(ks, keys, lr) == (ks, [], false)
  {
    var i := FirstStop(ks, keys);
    if i < |keys| {
      assert Stops(ks, keys[i]);
    }
  }

  /**
   * A present non-list key at position `i`, after only absent keys and empty
   * lists, ends the try with a wrong-type error and no change, whatever the
   * keys after it hold.
   */
  lemma PopTryWrongType(ks: Keyspace, keys: seq<string>, lr: Lr, i: nat)
    requires i < |keys| && HasKey(ks, keys[i]) && TagOf(ks, keys[i]) != "list"
    requires forall j :: 0 <= j < i ==> !Stops(ks, keys[j])
    ensures PopTryResult(ks, keys, lr) == (ks, [Error(WrongType)], true)
  {
    assert FirstStop(ks, keys) == i;
  }

  /**
   * A non-empty list at position `i`, after only absent keys and empty lists,
   * is popped at the requested end: its first (BLPOP) or last (BRPOP) element
   * is replied, it keeps the rest, and no other key's list or version changes.
   */
  lemma PopTryPops(ks: Keyspace, keys: seq<string>, lr: Lr, i: nat)
    requires WellFormed(ks)
    requires i < |keys| && TaggedAs(ks, keys[i], "list") && |ListOf(ks, keys[i])| > 0
    requires forall j :: 0 <= j < i ==> !Stops(ks, keys[j])
    ensures var (r, out, done) := PopTryResult(ks, keys, lr);
      var l := ListOf(ks, keys[i]);
      && done && WellFormed(r)
      && out == [Bulk(if lr == Left then l[0] else l[|l| - 1])]
      && ListOf(r, keys[i]) == (if lr == Left then l[1..] else l[..|l| - 1])
      && (forall k :: k != keys[i] ==> ListOf(r, k) == ListOf(ks, k) && Version(r, k) == Version(ks, k))
  {
    assert FirstStop(ks, keys) == i;
    if lr == Left {
      LeftPoppedSpec(ks, keys[i]);
    } else {
      RightPoppedSpec(ks, keys[i]);
    }
  }

  // ----- BRPOPLPUSH: the try predicate -----

  /**
   * The BRPOPLPUSH try: nothing while the source is absent or empty; a
   * wrong-type error when the source is not a list or the destination exists
   * and is not one; otherwise the source's last element moves to the front
   * of the destination and is replied.
   */
  function MoveTryResult(ks: Keyspace, src: string, dst: string): (Keyspace, seq<Reply>, bool)
  {
    if !HasKey(ks, src) then (ks, [], false)
    else if TagOf(ks, src) != "list" || (HasKey(ks, dst) && TagOf(ks, dst) != "list") then
      (ks, [Error(WrongType)], true)
    else if |ListOf(ks, src)| == 0 then (ks, [], false)
    else
      var (ks1, elem) := RightPopped(ks, src);
      var (ks2, _) := LeftPushed(ks1, dst, elem);
      (ks2, [Bulk(elem)], true)
  }

  /** After popping the source, the destination may still be pushed to. */
  lemma MovePushAllowed(ks: Keyspace, src: string, dst: string)
    requires WellFormed(ks) && TaggedAs(ks, src, "list") && |ListOf(ks, src)| > 0
    requires HasKey(ks, dst) ==> TagOf(ks, dst) == "list"
    ensures var r := RightPopped(ks, src).0;
      WellFormed(r) && (HasKey(r, dst) ==> TaggedAs(r, dst, "list"))
  {
    RightPoppedSpec(ks, src);
  }

  /**
   * A move takes the source's last element `e` and puts it in front of the
   * destination; when source and destination are the same list this rotates
   * it by one. The database stays well formed and no other key's list or
   * version changes.
   */
  lemma MoveTryMoves(ks: Keyspace, src: string, dst: string)
    requires WellFormed(ks) && TaggedAs(ks, src, "list") && |ListOf(ks, src)| > 0
    requires HasKey(ks, dst) ==> TagOf(ks, dst) == "list"
    ensures var (r, out, done) := MoveTryResult(ks, src, dst);
      var l := ListOf(ks, src);
      var e := l[|l| - 1];
      && done && out == [Bulk(e)] && WellFormed(r)
      && (src != dst ==> ListOf(r, src) == l[..|l| - 1] && ListOf(r, dst) == [e] + ListOf(ks, dst))
      && (src == dst ==> ListOf(r, src) == [e] + l[..|l| - 1])
      && (forall k :: k != src && k != dst ==> ListOf(r, k) == ListOf(ks, k) && Version(r, k) == Version(ks, k))
  {
    RightPoppedSpec(ks, src);
    var (ks1, e) := RightPopped(ks, src);
    MovePushAllowed(ks, src, dst);
    LeftPushedSpec(ks1, dst, e);
    LeftPushedWellFormed(ks1, dst, e);
  }

  /**
   * A move touches only the source and the destination: every other key
   * keeps its tag, its stored value, its TTL and its version.
   */
  lemma MoveTryKeepsOthers(ks: Keyspace, src: string, dst: string)
    requires WellFormed(ks) && TaggedAs(ks, src, "list") && |ListOf(ks, src)| > 0
    requires HasKey(ks, dst) ==> TagOf(ks, dst) == "list"
    ensures var r := MoveTryResult(ks, src, dst).0;
      forall k :: k != src && k != dst ==> SameEntry(r, ks, k)
  {
    var (ks1, e) := RightPopped(ks, src);
    var r := LeftPushed(ks1, dst, e).0;
    assert MoveTryResult(ks, src, dst).0 == r;
    RightPoppedKeepsOthers(ks, src);
    MovePushAllowed(ks, src, dst);
    LeftPushedKeepsOthers(ks1, dst, e);
    forall k | k != src && k != dst
      ensures SameEntry(r, ks, k)
    {
      assert SameEntry(r, ks1, k) && SameEntry(ks1, ks, k);
    }
  }

  /**
   * The BRPOPLPUSH try is not done, and changes and replies nothing, exactly
   * when the source is absent, or is an empty list while the destination is
   * absent or a list.
   */
  lemma MoveTryNotDone(ks: Keyspace, src: string, dst: string)
    ensures !MoveTryResult(ks, src, dst).2 <==>
      !HasKey(ks, src)
      || (TagOf(ks, src) == "list" && (HasKey(ks, dst) ==> TagOf(ks, dst) == "list") && |ListOf(ks, src)| == 0)
    ensures !MoveTryResult(ks, src, dst).2 ==> MoveTryResult(ks, src, dst) == (ks, [], false)
  {
  }

  /**
   * A move raises the versions of the source and the destination by one
   * each, and by two when they are the same key (one pop, one push).
   */
  lemma MoveTryVersions(ks: Keyspace, src: string, dst: string)
    requires WellFormed(ks) && TaggedAs(ks, src, "list") && |ListOf(ks, src)| > 0
    requires HasKey(ks, dst) ==> TagOf(ks, dst) == "list"
    ensures var r := MoveTryResult(ks, src, dst).0;
      && (src != dst ==> Version(r, src) == Version(ks, src) + 1 && Version(r, dst) == Version(ks, dst) + 1)
      && (src == dst ==> Version(r, src) == Version(ks, src) + 2)
  {
    RightPoppedSpec(ks, src);
    var (ks1, e) := RightPopped(ks, src);
    MovePushAllowed(ks, src, dst);
    LeftPushedSpec(ks1, dst, e);
  }

  /** A wrong type on either side ends BRPOPLPUSH with an error and no change. */
  lemma MoveTryWrongType(ks: Keyspace, src: string, dst: string)
    requires HasKey(ks, src)
    requires TagOf(ks, src) != "list" || (HasKey(ks, dst) && TagOf(ks, dst) != "list")
    ensures MoveTryResult(ks, src, dst) == (ks, [Error(WrongType)], true)
  {
  }

  // ----- LINDEX, LINSERT, LLEN -----

  /**
   * LINDEX: nothing for an absent key, a wrong-type error for a non-list; a
   * negative offset counts from the end, and an offset still outside the
   * list gives nothing.
   */
  function LindexResult(ks: Keyspace, key: string, offset: int): seq<Reply>
  {
    if !HasKey(ks, key) then []
    else if TagOf(ks, key) != "list" then [Error(WrongType)]
    else
      var l := ListOf(ks, key);
      var o := if offset < 0 then |l| + offset else offset;
      if o < 0 || o > |l| - 1 then [] else [Bulk(l[o])]
  }

  /**
   * On a list `l`, LINDEX replies element `offset` for `0 <= offset < |l|`,
   * element `|l| + offset` for `-|l| <= offset < 0`, and nothing otherwise.
   */
  lemma LindexOffsets(ks: Keyspace, key: string, offset: int)
    requires TaggedAs(ks, key, "list")
    ensures var l := ListOf(ks, key);
      && (0 <= offset < |l| ==> LindexResult(ks, key, offset) == [Bulk(l[offset])])
      && (-|l| <= offset < 0 ==> LindexResult(ks, key, offset) == [Bulk(l[|l| + offset])])
      && (LindexResult(ks, key, offset) == [] <==> offset < -|l| || |l| <= offset)
  {
  }

  /** First position of `x` in `l`, or |l| when it does not occur. */
  function IndexOf(l: seq<string>, x: string): (i: nat)
    ensures i <= |l|
    ensures forall j :: 0 <= j < i ==> l[j] != x
    ensures i < |l| ==> l[i] == x
  {
    if l == [] then 0
    else if l[0] == x then 0
    else 1 + IndexOf(l[1..], x)
  }

  /** `v` inserted into `l` so that it ends up at position `pos`. */
  function InsertAt(l: seq<string>, pos: nat, v: string): (r: seq<string>)
    requires pos <= |l|
    ensures |r| == |l| + 1 && r[pos] == v
    ensures r[..pos] == l[..pos] && r[pos + 1..] == l[pos..]
  {
    l[..pos] + [v] + l[pos..]
  }

  /**
   * LINSERT: nothing for an absent key, a wrong-type error for a non-list,
   * nothing when the pivot does not occur; otherwise the value goes just
   * before (`where < 0`) or just after the first occurrence of the pivot, and
   * the key's version rises.
   */
  function LinsertResult(ks: Keyspace, key: string, where: int, pivot: string, value: string): (Keyspace, seq<Reply>)
  {
    if !HasKey(ks, key) then (ks, [])
    else if TagOf(ks, key) != "list" then (ks, [Error(WrongType)])
    else
      var l := ListOf(ks, key);
      var i := IndexOf(l, pivot);
      if i == |l| then (ks, [])
      else
        var pos := if where < 0 then i else i + 1;
        (Bump(ks.(listKeys := ks.listKeys[key := InsertAt(l, pos, value)]), key), [])
  }

  /**
   * LINSERT on a list holding the pivot: the first occurrence `i` of the
   * pivot gets the value at `i` (before) or `i + 1` (after); the list grows
   * by one, every old element keeps its order, the version rises by one, no
   * other key changes, and nothing is replied.
   */
  lemma LinsertInserts(ks: Keyspace, key: string, where: int, pivot: string, value: string)
    requires TaggedAs(ks, key, "list") && pivot in ListOf(ks, key)
    ensures var r := LinsertResult(ks, key, where, pivot, value).0;
      var l := ListOf(ks, key);
      var i := IndexOf(l, pivot);
      var pos := if where < 0 then i else i + 1;
      && |ListOf(r, key)| == |l| + 1
      && ListOf(r, key)[pos] == value
      && ListOf(r, key)[..pos] + ListOf(r, key)[pos + 1..] == l
      && Version(r, key) == Version(ks, key) + 1
    ensures LinsertResult(ks, key, where, pivot, value).1 == []
  {
    var l := ListOf(ks, key);
    var i := IndexOf(l, pivot);
    var pos := if where < 0 then i else i + 1;
    LinsertFound(l, pivot);
    var nl := InsertAt(l, pos, value);
    var r := LinsertResult(ks, key, where, pivot, value).0;
    assert ListOf(r, key) == nl && Version(r, key) == Version(ks, key) + 1 by {
      LinsertFoundResult(ks, key, where, pivot, value);
      StoredListShape(ks, key, nl);
    }
    InsertAtKeepsOrder(l, pos, value);
  }

  /** A LINSERT that finds its pivot keeps the database well formed and changes no other key. */
  lemma LinsertKeepsOthers(ks: Keyspace, key: string, where: int, pivot: string, value: string)
    requires WellFormed(ks) && TaggedAs(ks, key, "list") && pivot in ListOf(ks, key)
    ensures var r := LinsertResult(ks, key, where, pivot, value).0;
      && WellFormed(r)
      && (forall k :: k != key ==> ListOf(r, k) == ListOf(ks, k) && Version(r, k) == Version(ks, k))
  {
    var l := ListOf(ks, key);
    var i := IndexOf(l, pivot);
    LinsertFound(l, pivot);
    var nl := InsertAt(l, if where < 0 then i else i + 1, value);
    LinsertFoundResult(ks, key, where, pivot, value);
    assert LinsertResult(ks, key, where, pivot, value).0 == Bump(ks.(listKeys := ks.listKeys[key := nl]), key);
    StoredList(ks, key, nl);
    StoredListShape(ks, key, nl);
  }

  /**
   * A proof step for LinsertInserts and LinsertKeepsOthers: the
   * found branch of LinsertResult, spelled out as the database it leaves.
   */
  lemma LinsertFoundResult(ks: Keyspace, key: string, where: int, pivot: string, value: string)
    requires TaggedAs(ks, key, "list") && IndexOf(ListOf(ks, key), pivot) < |ListOf(ks, key)|
    ensures var l := ListOf(ks, key);
      var i := IndexOf(l, pivot);
      LinsertResult(ks, key, where, pivot, value)
        == (Bump(ks.(listKeys := ks.listKeys[key := InsertAt(l, if where < 0 then i else i + 1, value)]), key), [])
  {
  }

  /** A pivot that occurs is found, and does not occur before where it is found. */
  lemma LinsertFound(l: seq<string>, pivot: string)
    requires pivot in l
    ensures IndexOf(l, pivot) < |l| && pivot !in l[..IndexOf(l, pivot)]
  {
  }

  /** Taking the inserted value out again gives back the old list. */
  lemma InsertAtKeepsOrder(l: seq<string>, pos: nat, v: string)
    requires pos <= |l|
    ensures InsertAt(l, pos, v)[..pos] + InsertAt(l, pos, v)[pos + 1..] == l
  {
    assert l == l[..pos] + l[pos..];
  }

  /** With the key absent, or the pivot nowhere in the list, LINSERT changes nothing. */
  lemma LinsertNoPivot(ks: Keyspace, key: string, where: int, pivot: string, value: string)
    requires !HasKey(ks, key) || (TagOf(ks, key) == "list" && pivot !in ListOf(ks, key))
    ensures LinsertResult(ks, key, where, pivot, value) == (ks, [])
  {
  }

  /** LLEN: nothing for an absent key, a wrong-type error for a non-list, else the length. */
  function LlenResult(ks: Keyspace, key: string): (out: seq<Reply>)
    ensures !HasKey(ks, key) <==> out == []
    ensures TaggedAs(ks, key, "list") <==> out == [Int(|ListOf(ks, key)|)]
    ensures HasKey(ks, key) && !TaggedAs(ks, key, "list") <==> out == [Error(WrongType)]
  {
    if !HasKey(ks, key) then []
    else if TagOf(ks, key) != "list" then [Error(WrongType)]
    else [Int(|ListOf(ks, key)|)]
  }

  // ----- running steps -----

  /** What a step does to its database, and what it replies. */
  function StepResult(ks: Keyspace, step: Step): (Keyspace, seq<Reply>)
  {
    match step
    case LindexStep(key, offset) => (ks, LindexResult(ks, key, offset))
    case LinsertStep(key, where, pivot, value) => LinsertResult(ks, key, where, pivot, value)
    case LlenStep(key) => (ks, LlenResult(ks, key))
  }

  function TryResult(ks: Keyspace, try: Try): (Keyspace, seq<Reply>, bool)
  {
    match try
    case PopTry(keys, lr) => PopTryResult(ks, keys, lr)
    case MoveTry(src, dst) => MoveTryResult(ks, src, dst)
  }

  /** Every step, and every try, keeps the database well formed. */
  lemma {:induction false} StepsKeepWellFormed(ks: Keyspace, step: Step, try: Try)
    requires WellFormed(ks)
    ensures WellFormed(StepResult(ks, step).0)
    ensures WellFormed(TryResult(ks, try).0)
  {
    match step {
      case LinsertStep(key, where, pivot, value) =>
        if TaggedAs(ks, key, "list") && pivot in ListOf(ks, key) {
          LinsertKeepsOthers(ks, key, where, pivot, value);
        } else if TaggedAs(ks, key, "list") {
          LinsertNoPivot(ks, key, where, pivot, value);
        }
      case _ =>
    }
    match try {
      case PopTry(keys, lr) =>
        var i := FirstStop(ks, keys);
        if i < |keys| && TagOf(ks, keys[i]) == "list" {
          PopTryPops(ks, keys, lr, i);
        }
      case MoveTry(src, dst) =>
        if HasKey(ks, src) && TagOf(ks, src) == "list" && (HasKey(ks, dst) ==> TagOf(ks, dst) == "list")
           && |ListOf(ks, src)| > 0 {
          MoveTryMoves(ks, src, dst);
        }
    }
  }

  /**
   * A queued entry, run: a step runs; a try runs once, replies "timeout"
   * at once when not done, and then replies "QUEUED".
   */
  function TxCmdResult(ks: Keyspace, cmd: TxCmd): (Keyspace, seq<Reply>)
  {
    match cmd
    case Run(step) => StepResult(ks, step)
    case TryOnce(try) =>
      var (ks1, out, done) := TryResult(ks, try);
      (ks1, out + (if done then [] else [Bulk("timeout")]) + [Inline("QUEUED")])
  }

  /**
   * withTx for connection state `s`, whose selected database holds `ks`: a
   * nested call runs the step; otherwise, in a transaction the step is
   * queued and "QUEUED" replied; otherwise it runs.
   */
  function WithTxResult(s: CtxState, ks: Keyspace, step: Step): (CtxState, Keyspace, seq<Reply>)
  {
    if s.nested then
      var (ks1, out) := StepResult(ks, step);
      (s, ks1, out)
    else if InTx(s) then (Appended(s, Run(step)), ks, [Inline("QUEUED")])
    else
      var (ks1, out) := StepResult(ks, step);
      (s, ks1, out)
  }

  /**
   * In a transaction, and not nested, a command is not run: the database is
   * untouched, the step is the new last entry of the queue after the old
   * ones, and "QUEUED" is the only reply. Out of a transaction, or nested, it
   * runs and the connection state is unchanged.
   */
  lemma WithTxQueuesOrRuns(s: CtxState, ks: Keyspace, step: Step)
    ensures var (s1, ks1, out) := WithTxResult(s, ks, step);
      && (!s.nested && InTx(s) ==>
            && ks1 == ks && out == [Inline("QUEUED")]
            && InTx(s1) && Queued(s1) == Queued(s) + [Run(step)]
            && s1.(transaction := s.transaction) == s)
      && ((s.nested || !InTx(s)) ==> s1 == s && (ks1, out) == StepResult(ks, step))
  {
    AppendedSpec(s, Run(step));
  }

  /**
   * blocking, up to the wait: in a transaction the try is queued; then the
   * try runs once, also in a transaction, since the queueing branch does not
   * return. The last component says whether the command would now wait.
   */
  function BlockingResult(s: CtxState, ks: Keyspace, try: Try): (CtxState, Keyspace, seq<Reply>, bool)
  {
    var s1 := if InTx(s) then Appended(s, TryOnce(try)) else s;
    var (ks1, out, done) := TryResult(ks, try);
    (s1, ks1, out, !done)
  }

  /**
   * A blocking command in a transaction both queues its try and runs it
   * straight away: the database changes as the try says even though the
   * command was queued.
   */
  lemma BlockingInTxAlsoRuns(s: CtxState, ks: Keyspace, try: Try)
    requires InTx(s)
    ensures var (s1, ks1, out, waits) := BlockingResult(s, ks, try);
      && Queued(s1) == Queued(s) + [TryOnce(try)]
      && ks1 == TryResult(ks, try).0 && out == TryResult(ks, try).1
      && waits == !TryResult(ks, try).2
  {
    AppendedSpec(s, TryOnce(try));
  }

  // ----- the timeout -----

  const NanosPerSecond: int := 1_000_000_000

  /** A Go int64 result: `x` reduced into the signed 64-bit range, as wrap-around does. */
  function WrapInt64(x: int): (y: int)
    ensures MinInt64 <= y <= MaxInt64
    ensures (y - x) % 0x1_0000_0000_0000_0000 == 0
  {
    var m := x % 0x1_0000_0000_0000_0000;
    if m > MaxInt64 then m - 0x1_0000_0000_0000_0000 else m
  }

  /** `time.Duration(timeout) * time.Second` as written: an int64 product, which wraps. */
  function TimeoutAsWritten(seconds: int): (d: int)
    ensures MinInt64 <= d <= MaxInt64
  {
    WrapInt64(seconds * NanosPerSecond)
  }

  /**
   * A positive timeout above about 292 years becomes a negative duration
   * (a timer that fires at once), and one of 2^55 seconds becomes 0, which
   * means no timer at all.
   */
  lemma TimeoutAsWrittenWraps()
    ensures TimeoutAsWritten(9223372037) < 0
    ensures TimeoutAsWritten(0x80_0000_0000_0000) == 0
  {
  }

  /**
   * The timeout as a duration in nanoseconds, held at the largest int64
   * duration when the product does not fit: a longer timeout never means a
   * shorter wait.
   */
  function Timeout(seconds: nat): (d: int)
    ensures 0 <= d <= MaxInt64
    ensures seconds * NanosPerSecond <= MaxInt64 ==> d == TimeoutAsWritten(seconds)
  {
    if seconds * NanosPerSecond <= MaxInt64 then seconds * NanosPerSecond else MaxInt64
  }

  /** Zero means no timer; any positive timeout gives a positive duration, and longer never gives shorter. */
  lemma TimeoutMonotone(a: nat, b: nat)
    requires a <= b
    ensures Timeout(a) <= Timeout(b)
    ensures Timeout(a) == 0 <==> a == 0
  {
    assert a * NanosPerSecond <= b * NanosPerSecond;
  }
}
