/**
 * Per-connection state: the selected database, the transaction queue, the
 * watched keys and a few flags. A connection is in a transaction exactly
 * when its queue exists, even if the queue is still empty; DISCARD drops the
 * queue and the watched keys.
 *
 * A client connection (`Peer`) carries this state in a slot that is filled
 * on first use, and collects the replies the command handlers write to it.
 */
module Connection {

  import opened Common

  datatype Lr = Left | Right

  /** A watched key: database id and key name. */
  datatype DbKey = DbKey(db: int, key: string)

  /** The state-changing part of a non-blocking list command, with the values it captured. */
  datatype Step =
    | LindexStep(key: string, offset: int)
    | LinsertStep(key: string, where: int, pivot: string, value: string)
    | LlenStep(key: string)

  /** The try predicate of a blocking list command. */
  datatype Try =
    | PopTry(keys: seq<string>, lr: Lr)
    | MoveTry(src: string, dst: string)

  /** One entry of a transaction queue. */
  datatype TxCmd =
    | Run(step: Step)   // queued by withTx: run the step
    | TryOnce(try: Try) // queued by blocking: try once, reply "timeout" if not done, then "QUEUED"

  /** The fields of a connection context, as a value. */
  datatype CtxState = CtxState(
    selectedDB: int,
    authenticated: bool,
    transaction: Option<seq<TxCmd>>,   // None is the nil queue
    dirtyTransaction: bool,
    watch: Option<map<DbKey, nat>>,    // None is the nil map
    subscribed: bool,                  // a subscriber is attached
    nested: bool)

  /** The zero context Go allocates: nothing set, no queue, nothing watched. */
  const ZeroCtx: CtxState := CtxState(0, false, None, false, None, false, false)

  /** inTx: the queue exists. */
  predicate InTx(s: CtxState) {
    s.transaction.Some?
  }

  /** The queued entries; a nil queue reads as none. */
  function Queued(s: CtxState): seq<TxCmd> {
    if s.transaction.Some? then s.transaction.value else []
  }

  /** addTxCmd: appending to a nil queue creates it, as Go's append does. */
  function Appended(s: CtxState, cb: TxCmd): CtxState {
    s.(transaction := Some(Queued(s) + [cb]))
  }

  /** unwatch */
  function Unwatched(s: CtxState): CtxState {
    s.(watch := None)
  }

  /** stopTx: drop the queue, then unwatch. */
  function Stopped(s: CtxState): CtxState {
    Unwatched(s.(transaction := None))
  }

  /**
   * DISCARD on a connection in state `s`: the new state and the replies
   * written. The argument count is checked first, then the transaction.
   */
  function Discard(s: CtxState, args: seq<string>): (CtxState, seq<Reply>) {
    if |args| != 0 then (s, [Error("errWrongNumber(cmd)")])
    else if !InTx(s) then (s, [Error("ERR DISCARD without MULTI")])
    else (Stopped(s), [])
  }

  // ----- properties -----

  /** An empty queue that exists still means the connection is in a transaction. */
  lemma EmptyQueueIsInTx(s: CtxState)
    requires s.transaction == Some([])
    ensures InTx(s) && Queued(s) == []
  {
  }

  /**
   * addTxCmd puts the entry at the end of the queue, keeps every earlier
   * entry in place, leaves the connection in a transaction, and changes no
   * other field.
   */
  lemma AppendedSpec(s: CtxState, cb: TxCmd)
    ensures var t := Appended(s, cb);
      && InTx(t)
      && |Queued(t)| == |Queued(s)| + 1
      && Queued(t)[|Queued(s)|] == cb
      && (forall i :: 0 <= i < |Queued(s)| ==> Queued(t)[i] == Queued(s)[i])
      && t.(transaction := s.transaction) == s
  {
  }

  /**
   * stopTx ends the transaction and clears the watched keys; the selected
   * database, the authentication, the dirty flag, the subscriber and the
   * nesting flag keep their values.
   */
  lemma StoppedSpec(s: CtxState)
    ensures var t := Stopped(s);
      && !InTx(t) && t.watch == None
      && t.selectedDB == s.selectedDB && t.authenticated == s.authenticated
      && t.dirtyTransaction == s.dirtyTransaction && t.subscribed == s.subscribed
      && t.nested == s.nested
  {
  }

  /** unwatch twice is unwatch once. */
  lemma UnwatchIdempotent(s: CtxState)
    ensures Unwatched(Unwatched(s)) == Unwatched(s)
  {
  }

  /**
   * DISCARD with arguments, or outside a transaction, only replies an error;
   * inside a transaction with no arguments it ends the transaction, clears
   * the watched keys and replies nothing.
   */
  lemma DiscardSpec(s: CtxState, args: seq<string>)
    ensures var (t, out) := Discard(s, args);
      && (|args| != 0 ==> t == s && out == [Error("errWrongNumber(cmd)")])
      && (|args| == 0 && !InTx(s) ==> t == s && out == [Error("ERR DISCARD without MULTI")])
      && (|args| == 0 && InTx(s) ==> t == Stopped(s) && !InTx(t) && t.watch == None && out == [])
      && (out == [] <==> |args| == 0 && InTx(s))
  {
  }

  // ----- the objects -----

  /** connCtx */
  class ConnCtx {
    var selectedDB: int
    var authenticated: bool
    var transaction: Option<seq<TxCmd>>
    var dirtyTransaction: bool
    var watch: Option<map<DbKey, nat>>
    var subscribed: bool
    var nested: bool

    ghost function State(): CtxState
      reads this
    {
      CtxState(selectedDB, authenticated, transaction, dirtyTransaction, watch, subscribed, nested)
    }

    /** `&connCtx{}` */
    constructor ()
      ensures State() == ZeroCtx
    {
      selectedDB, authenticated, transaction, dirtyTransaction := 0, false, None, false;
      watch, subscribed, nested := None, false, false;
    }

    /** inTx */
    function InTransaction(): (b: bool)
      reads this
      ensures b == InTx(State())
    {
      transaction != None
    }

    /** addTxCmd */
    method AddTxCmd(cb: TxCmd)
      modifies this
      ensures State() == Appended(old(State()), cb)
    {
      var q := if transaction.Some? then transaction.value else [];
      transaction := Some(q + [cb]);
    }

    /** unwatch */
    method Unwatch()
      modifies this
      ensures State() == Unwatched(old(State()))
    {
      watch := None;
    }

    /** stopTx */
    method StopTx()
      modifies this
      ensures State() == Stopped(old(State()))
    {
      transaction := None;
      Unwatch();
    }
  }

  /** A client connection: its context slot and the replies written to it so far. */
  class Peer {
    var ctx: ConnCtx?
    var replies: seq<Reply>

    constructor ()
      ensures ctx == null && replies == []
    {
      ctx, replies := null, [];
    }

    method WriteInline(s: string)
      modifies this
      ensures ctx == old(ctx) && replies == old(replies) + [Inline(s)]
    {
      replies := replies + [Inline(s)];
    }

    method WriteError(e: string)
      modifies this
      ensures ctx == old(ctx) && replies == old(replies) + [Error(e)]
    {
      replies := replies + [Error(e)];
    }

    method WriteBulk(s: string)
      modifies this
      ensures ctx == old(ctx) && replies == old(replies) + [Bulk(s)]
    {
      replies := replies + [Bulk(s)];
    }

    method WriteInt(n: int)
      modifies this
      ensures ctx == old(ctx) && replies == old(replies) + [Int(n)]
    {
      replies := replies + [Int(n)];
    }
  }

  /** The connection state a peer has; an empty slot reads as the zero context. */
  ghost function CtxOf(c: Peer): CtxState
    reads c, c.ctx
  {
    if c.ctx == null then ZeroCtx else c.ctx.State()
  }

  /**
   * getCtx: the peer's context, allocated and stored on first use. Either
   * way the peer's connection state, as a value, does not change.
   */
  method GetCtx(c: Peer) returns (ctx: ConnCtx)
    modifies c
    ensures c.ctx == ctx && c.replies == old(c.replies)
    ensures old(c.ctx) != null ==> ctx == old(c.ctx)
    ensures old(c.ctx) == null ==> fresh(ctx)
    ensures ctx.State() == old(CtxOf(c))
  {
    if c.ctx == null {
      c.ctx := new ConnCtx();
    }
    ctx := c.ctx;
  }

  /** DISCARD */
  method CmdDiscard(c: Peer, args: seq<string>)
    modifies c, c.ctx
    ensures CtxOf(c) == Discard(old(CtxOf(c)), args).0
    ensures c.replies == old(c.replies) + Discard(old(CtxOf(c)), args).1
    ensures |args| != 0 ==> c.ctx == old(c.ctx)
  {
    if |args| != 0 {
      c.WriteError("errWrongNumber(cmd)");
      return;
    }
    var ctx := GetCtx(c);
    if !ctx.InTransaction() {
      c.WriteError("ERR DISCARD without MULTI");
      return;
    }
    ctx.StopTx();
  }
}
