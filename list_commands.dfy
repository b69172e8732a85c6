/**
 * The list command handlers and the machinery they run through: the steps
 * and try predicates as they act on a database object and write to a
 * connection, withTx, the queueing branch and first try of blocking, and the
 * entry points BLPOP, BRPOP, BRPOPLPUSH, LINDEX, LINSERT and LLEN. Each is
 * proved against the functions of ListSpec.
 */
module ListCommands {

  import opened Common
  import opened Keyspace
  import opened Connection
  import opened ListSpec

  // ----- steps on one database -----

  /**
   * The scan of the BLPOP/BRPOP try: the position of the first key that is
   * present and either not a list or a non-empty list; |keys| when none is.
   */
  method ScanKeys(db: RedisDB, keys: seq<string>) returns (i: nat)
    requires db.Valid()
    ensures i <= |keys|
    ensures forall j :: 0 <= j < i ==> !Stops(db.Snapshot(), keys[j])
    ensures i < |keys| ==> Stops(db.Snapshot(), keys[i])
  {
    i := 0;
    while i < |keys|
      invariant i <= |keys|
      invariant forall j :: 0 <= j < i ==> !Stops(db.Snapshot(), keys[j])
    {
      var key := keys[i];
      if db.Exists(key) {
        if db.T(key) != "list" {
          return;
        }
        if |db.listKeys[key]| != 0 {
          return;
        }
      }
      i := i + 1;
    }
  }

  /** The BLPOP/BRPOP try predicate on database `db`. */
  method PopOn(db: RedisDB, c: Peer, keys: seq<string>, lr: Lr) returns (done: bool)
    requires db.Valid()
    modifies db, c
    ensures db.Valid() && c.ctx == old(c.ctx)
    ensures var (ks, out, d) := PopTryResult(old(db.Snapshot()), keys, lr);
      db.Snapshot() == ks && c.replies == old(c.replies) + out && done == d
  {
    var i := ScanKeys(db, keys);
    assert i == FirstStop(db.Snapshot(), keys);
    if i == |keys| {
      return false;
    }
    var key := keys[i];
    if db.T(key) != "list" {
      c.WriteError(WrongType);
      return true;
    }
    var v: string;
    if lr == Left {
      v := db.ListLpop(key);
    } else {
      v := db.ListPop(key);
    }
    c.WriteBulk(v);
    return true;
  }

  /** The BRPOPLPUSH try predicate on database `db`. */
  method MoveOn(db: RedisDB, c: Peer, src: string, dst: string) returns (done: bool)
    requires db.Valid()
    modifies db, c
    ensures db.Valid() && c.ctx == old(c.ctx)
    ensures var (ks, out, d) := MoveTryResult(old(db.Snapshot()), src, dst);
      db.Snapshot() == ks && c.replies == old(c.replies) + out && done == d
  {
    if !db.Exists(src) {
      return false;
    }
    if db.T(src) != "list" || (db.Exists(dst) && db.T(dst) != "list") {
      c.WriteError(WrongType);
      return true;
    }
    if |db.listKeys[src]| == 0 {
      return false;
    }
    MovePushAllowed(db.Snapshot(), src, dst);
    var elem := db.ListPop(src);
    var _ := db.ListLpush(dst, elem);
    c.WriteBulk(elem);
    return true;
  }

  /** The LINDEX step on database `db`. */
  method LindexOn(db: RedisDB, c: Peer, key: string, offset: int)
    modifies c
    ensures c.ctx == old(c.ctx)
    ensures c.replies == old(c.replies) + LindexResult(db.Snapshot(), key, offset)
  {
    if key !in db.keys {
      return;
    }
    if db.keys[key] != "list" {
      c.WriteError(WrongType);
      return;
    }
    var l := if key in db.listKeys then db.listKeys[key] else [];
    var o := offset;
    if o < 0 {
      o := |l| + o;
    }
    if o < 0 || o > |l| - 1 {
      return;
    }
    c.WriteBulk(l[o]);
  }

  /**
   * The LINSERT step on database `db`: walks the list to the first
   * occurrence of the pivot and inserts there.
   */
  method LinsertOn(db: RedisDB, c: Peer, key: string, where: int, pivot: string, value: string)
    requires db.Valid()
    modifies db, c
    ensures db.Valid() && c.ctx == old(c.ctx)
    ensures var (ks, out) := LinsertResult(old(db.Snapshot()), key, where, pivot, value);
      db.Snapshot() == ks && c.replies == old(c.replies) + out
  {
    if key !in db.keys {
      return;
    }
    if db.keys[key] != "list" {
      c.WriteError(WrongType);
      return;
    }
    ghost var ks0 := db.Snapshot();
    var l := db.listKeys[key];
    var i := FindPivot(l, pivot);
    if i == |l| {
      LinsertNoPivot(ks0, key, where, pivot, value);
      return;
    }
    l := SpliceIn(l, i, where, value);
    db.StoreList(key, l);
    LinsertFoundResult(ks0, key, where, pivot, value);
  }

  /** The walk of LINSERT: the position of the first occurrence of `pivot`, |l| when there is none. */
  method FindPivot(l: seq<string>, pivot: string) returns (i: nat)
    ensures i == IndexOf(l, pivot)
  {
    i := 0;
    while i < |l| && l[i] != pivot
      invariant i <= |l|
      invariant IndexOf(l, pivot) == i + IndexOf(l[i..], pivot)
    {
      assert l[i..][1..] == l[i + 1..];
      i := i + 1;
    }
  }

  /**
   * The slice surgery of LINSERT: `value` goes in just before position `i`
   * (`where < 0`) or just after it, appended when `i` is the last position.
   */
  method SpliceIn(l: seq<string>, i: nat, where: int, value: string) returns (r: seq<string>)
    requires i < |l|
    ensures r == InsertAt(l, if where < 0 then i else i + 1, value)
  {
    if where < 0 {
      r := l[..i] + ([value] + l[i..]);
    } else {
      if i == |l| - 1 {
        r := l + [value];
      } else {
        r := l[..i + 1] + ([value] + l[i + 1..]);
      }
    }
  }

  /** The LLEN step on database `db`. */
  method LlenOn(db: RedisDB, c: Peer, key: string)
    modifies c
    ensures c.ctx == old(c.ctx)
    ensures c.replies == old(c.replies) + LlenResult(db.Snapshot(), key)
  {
    if key !in db.keys {
      return;
    }
    if db.keys[key] != "list" {
      c.WriteError(WrongType);
      return;
    }
    c.WriteInt(|(if key in db.listKeys then db.listKeys[key] else [])|);
  }

  // ----- steps on the selected database -----

  /** Runs a step against the database the connection has selected. */
  method RunStep(m: ShinyRedis, c: Peer, sel: int, step: Step)
    requires m.Valid()
    modifies m, m.dbs.Values, c
    ensures m.Valid() && c.ctx == old(c.ctx)
    ensures var (ks, out) := StepResult(old(m.DbState(sel)), step);
      m.DbState(sel) == ks && c.replies == old(c.replies) + out
    ensures forall j :: j != sel ==> m.DbState(j) == old(m.DbState(j))
  {
    var db := m.Db(sel);
    StepOn(db, c, step);
  }

  /** A step on database `db`. */
  method StepOn(db: RedisDB, c: Peer, step: Step)
    requires db.Valid()
    modifies db, c
    ensures db.Valid() && c.ctx == old(c.ctx)
    ensures var (ks, out) := StepResult(old(db.Snapshot()), step);
      db.Snapshot() == ks && c.replies == old(c.replies) + out
  {
    match step {
      case LindexStep(key, offset) => LindexOn(db, c, key, offset);
      case LinsertStep(key, where, pivot, value) => LinsertOn(db, c, key, where, pivot, value);
      case LlenStep(key) => LlenOn(db, c, key);
    }
  }

  /** Runs a try predicate once against the selected database. */
  method RunTry(m: ShinyRedis, c: Peer, sel: int, try: Try) returns (done: bool)
    requires m.Valid()
    modifies m, m.dbs.Values, c
    ensures m.Valid() && c.ctx == old(c.ctx)
    ensures var (ks, out, d) := TryResult(old(m.DbState(sel)), try);
      m.DbState(sel) == ks && c.replies == old(c.replies) + out && done == d
    ensures forall j :: j != sel ==> m.DbState(j) == old(m.DbState(j))
  {
    var db := m.Db(sel);
    done := TryOn(db, c, try);
  }

  /** A try predicate on database `db`. */
  method TryOn(db: RedisDB, c: Peer, try: Try) returns (done: bool)
    requires db.Valid()
    modifies db, c
    ensures db.Valid() && c.ctx == old(c.ctx)
    ensures var (ks, out, d) := TryResult(old(db.Snapshot()), try);
      db.Snapshot() == ks && c.replies == old(c.replies) + out && done == d
  {
    match try {
      case PopTry(keys, lr) => done := PopOn(db, c, keys, lr);
      case MoveTry(src, dst) => done := MoveOn(db, c, src, dst);
    }
  }

  /** Runs one queued transaction entry. */
  method RunTxCmd(m: ShinyRedis, c: Peer, sel: int, cmd: TxCmd)
    requires m.Valid()
    modifies m, m.dbs.Values, c
    ensures m.Valid() && c.ctx == old(c.ctx)
    ensures var (ks, out) := TxCmdResult(old(m.DbState(sel)), cmd);
      m.DbState(sel) == ks && c.replies == old(c.replies) + out
    ensures forall j :: j != sel ==> m.DbState(j) == old(m.DbState(j))
  {
    match cmd {
      case Run(step) => RunStep(m, c, sel, step);
      case TryOnce(try) => RunQueuedTry(m, c, sel, try);
    }
  }

  /** The entry blocking queues: try once, "timeout" when not done, then "QUEUED". */
  method RunQueuedTry(m: ShinyRedis, c: Peer, sel: int, try: Try)
    requires m.Valid()
    modifies m, m.dbs.Values, c
    ensures m.Valid() && c.ctx == old(c.ctx)
    ensures var (ks, out) := TxCmdResult(old(m.DbState(sel)), TryOnce(try));
      m.DbState(sel) == ks && c.replies == old(c.replies) + out
    ensures forall j :: j != sel ==> m.DbState(j) == old(m.DbState(j))
  {
    var done := RunTry(m, c, sel, try);
    AfterQueuedTry(c, done);
  }

  /** The replies that follow the queued try: "timeout" when it was not done, then "QUEUED". */
  method AfterQueuedTry(c: Peer, done: bool)
    modifies c
    ensures c.ctx == old(c.ctx)
    ensures c.replies == old(c.replies) + (if done then [] else [Bulk("timeout")]) + [Inline("QUEUED")]
  {
    if !done {
      c.WriteBulk("timeout");
    }
    c.WriteInline("QUEUED");
  }

  // ----- withTx and blocking -----

  /** withTx: run the step now, or queue it when the connection is in a transaction. */
  method WithTx(m: ShinyRedis, c: Peer, step: Step)
    requires m.Valid()
    modifies m, m.dbs.Values, c, c.ctx
    ensures m.Valid()
    ensures var s := old(CtxOf(c));
      var (s1, ks1, out) := WithTxResult(s, old(m.DbState(s.selectedDB)), step);
      && CtxOf(c) == s1 && m.DbState(s.selectedDB) == ks1 && c.replies == old(c.replies) + out
    ensures forall j :: j != old(CtxOf(c)).selectedDB ==> m.DbState(j) == old(m.DbState(j))
  {
    var ctx := GetCtx(c);
    // a nested call runs at once, in a transaction or not
    if !ctx.nested && ctx.InTransaction() {
      ctx.AddTxCmd(Run(step));
      c.WriteInline("QUEUED");
      return;
    }
    RunStep(m, c, ctx.selectedDB, step);
  }

  /**
   * blocking, up to where it would wait: in a transaction the try is queued;
   * then, in a transaction or not, the try runs once. `waits` says whether
   * the command would now wait for a change or for its timer.
   */
  method Blocking(m: ShinyRedis, c: Peer, try: Try) returns (waits: bool)
    requires m.Valid()
    modifies m, m.dbs.Values, c, c.ctx
    ensures m.Valid()
    ensures var s := old(CtxOf(c));
      var (s1, ks1, out, w) := BlockingResult(s, old(m.DbState(s.selectedDB)), try);
      && CtxOf(c) == s1 && m.DbState(s.selectedDB) == ks1 && c.replies == old(c.replies) + out
      && waits == w
    ensures forall j :: j != old(CtxOf(c)).selectedDB ==> m.DbState(j) == old(m.DbState(j))
  {
    var ctx := QueueTry(c, try);
    var done := RunTry(m, c, ctx.selectedDB, try);
    waits := !done;
  }

  /** The queueing branch of blocking: in a transaction, the try joins the queue. */
  method QueueTry(c: Peer, try: Try) returns (ctx: ConnCtx)
    modifies c, c.ctx
    ensures c.ctx == ctx && c.replies == old(c.replies)
    ensures CtxOf(c) == (if InTx(old(CtxOf(c))) then Appended(old(CtxOf(c)), TryOnce(try)) else old(CtxOf(c)))
  {
    ctx := GetCtx(c);
    if ctx.InTransaction() {
      ctx.AddTxCmd(TryOnce(try));
    }
  }

  // ----- the command handlers -----

  /**
   * BLPOP (`lr == Left`) and BRPOP (`lr == Right`). `waits` says whether the
   * command would now wait; `timer` is the duration handed to blocking, the
   * wrapping int64 product of the timeout and a second, 0 for no timer.
   */
  method CmdBXpop(m: ShinyRedis, c: Peer, args: seq<string>, lr: Lr) returns (waits: bool, timer: int)
    requires m.Valid()
    modifies m, m.dbs.Values, c, c.ctx
    ensures m.Valid()
    ensures CheckBXpop(args).Reject? ==>
      && CtxOf(c) == old(CtxOf(c)) && c.replies == old(c.replies) + CheckBXpop(args).replies
      && (forall j :: m.DbState(j) == old(m.DbState(j)))
      && !waits
    ensures CheckBXpop(args).Accept? ==>
      var (keys, seconds) := CheckBXpop(args).value;
      var s := old(CtxOf(c));
      var (s1, ks1, out, w) := BlockingResult(s, old(m.DbState(s.selectedDB)), PopTry(keys, lr));
      && CtxOf(c) == s1 && m.DbState(s.selectedDB) == ks1 && c.replies == old(c.replies) + out
      && (forall j :: j != s.selectedDB ==> m.DbState(j) == old(m.DbState(j)))
      && waits == w && timer == TimeoutAsWritten(seconds)
      && (seconds * NanosPerSecond <= MaxInt64 ==> timer == Timeout(seconds))
  {
    if |args| < 2 {
      c.WriteError(WrongNumber);
      return false, 0;
    }
    var timeoutS := args[|args| - 1];
    var keys := args[..|args| - 1];
    var timeout := Atoi(timeoutS);
    if timeout.None? {
      return false, 0;
    }
    if timeout.value < 0 {
      return false, 0;
    }
    timer := TimeoutAsWritten(timeout.value);
    waits := Blocking(m, c, PopTry(keys, lr));
  }

  /** BRPOPLPUSH */
  method CmdBrpoplpush(m: ShinyRedis, c: Peer, args: seq<string>) returns (waits: bool, timer: int)
    requires m.Valid()
    modifies m, m.dbs.Values, c, c.ctx
    ensures m.Valid()
    ensures CheckBrpoplpush(args).Reject? ==>
      && CtxOf(c) == old(CtxOf(c)) && c.replies == old(c.replies) + CheckBrpoplpush(args).replies
      && (forall j :: m.DbState(j) == old(m.DbState(j)))
      && !waits
    ensures CheckBrpoplpush(args).Accept? ==>
      var (src, dst, seconds) := CheckBrpoplpush(args).value;
      var s := old(CtxOf(c));
      var (s1, ks1, out, w) := BlockingResult(s, old(m.DbState(s.selectedDB)), MoveTry(src, dst));
      && CtxOf(c) == s1 && m.DbState(s.selectedDB) == ks1 && c.replies == old(c.replies) + out
      && (forall j :: j != s.selectedDB ==> m.DbState(j) == old(m.DbState(j)))
      && waits == w && timer == TimeoutAsWritten(seconds)
      && (seconds * NanosPerSecond <= MaxInt64 ==> timer == Timeout(seconds))
  {
    if |args| != 3 {
      c.WriteError(WrongNumber);
      return false, 0;
    }
    var src := args[0];
    var dst := args[1];
    var timeout := Atoi(args[2]);
    if timeout.None? {
      return false, 0;
    }
    if timeout.value < 0 {
      return false, 0;
    }
    timer := TimeoutAsWritten(timeout.value);
    waits := Blocking(m, c, MoveTry(src, dst));
  }

  /**
   * The common shape of LINDEX, LINSERT and LLEN: arguments rejected by
   * `check` give its replies and change nothing; accepted ones go through withTx.
   */
  twostate predicate HandledBy(check: Checked<Step>, m: ShinyRedis, c: Peer)
    reads m, m.dbs.Values, c, c.ctx
  {
    var s := old(CtxOf(c));
    && (check.Reject? ==>
          && CtxOf(c) == s && c.replies == old(c.replies) + check.replies
          && (forall j :: m.DbState(j) == old(m.DbState(j))))
    && (check.Accept? ==>
          var (s1, ks1, out) := WithTxResult(s, old(m.DbState(s.selectedDB)), check.value);
          && CtxOf(c) == s1 && m.DbState(s.selectedDB) == ks1 && c.replies == old(c.replies) + out
          && (forall j :: j != s.selectedDB ==> m.DbState(j) == old(m.DbState(j))))
  }

  /** LINDEX */
  method CmdLindex(m: ShinyRedis, c: Peer, args: seq<string>)
    requires m.Valid()
    modifies m, m.dbs.Values, c, c.ctx
    ensures m.Valid()
    ensures HandledBy(CheckLindex(args), m, c)
  {
    if |args| != 2 {
      c.WriteError("errWrongNumber");
      return;
    }
    var key, offsets := args[0], args[1];
    var offset := Atoi(offsets);
    if offset.None? || offsets == "-0" {
      c.WriteError("msgInvalidInt");
      return;
    }
    WithTx(m, c, LindexStep(key, offset.value));
  }

  /** LINSERT */
  method CmdLinsert(m: ShinyRedis, c: Peer, args: seq<string>)
    requires m.Valid()
    modifies m, m.dbs.Values, c, c.ctx
    ensures m.Valid()
    ensures HandledBy(CheckLinsert(args), m, c)
  {
    if |args| != 4 {
      c.WriteError(WrongNumber);
      return;
    }
    var key := args[0];
    var where := 0;
    var w := Lower(args[1]);
    if w == "before" {
      where := -1;
    } else if w == "after" {
      where := 1;
    } else {
      c.WriteError("msgSyntaxError");
      return;
    }
    var pivot := args[2];
    var value := args[3];
    WithTx(m, c, LinsertStep(key, where, pivot, value));
  }

  /** LLEN */
  method CmdLlen(m: ShinyRedis, c: Peer, args: seq<string>)
    requires m.Valid()
    modifies m, m.dbs.Values, c, c.ctx
    ensures m.Valid()
    ensures HandledBy(CheckLlen(args), m, c)
  {
    if |args| != 1 {
      c.WriteError(WrongNumber);
      return;
    }
    var key := args[0];
    WithTx(m, c, LlenStep(key));
  }
}
