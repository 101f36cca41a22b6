/**
 * Verifying a one-time code. A verify request checks the code, creates a token and its recovery
 * entry, and only then consumes the code with a compare-and-swap; a retry under the same
 * idempotency key may recover the token. Requests interleave statement by statement, and any of
 * them may crash anywhere.
 */
module Otp {
  import opened Common

  const MAX_ATTEMPTS := 5

  /** `account` stands for phone and purpose; `issued` orders the codes of one account. */
  datatype Row = Row(account: Id, code: nat, issued: nat, expiresAt: int, attempts: nat,
                     consumedAt: Option<int>, consumedByKey: Option<Id>)

  /** The recovery entry's key: the code's row and the idempotency key of the request. */
  datatype Slot = Slot(otp: Id, key: Id)

  datatype Claim = Claim(otp: Id, attempts: nat)

  /** How far a request has come. */
  datatype Stage =
    | Fresh
    | Wrong(otp: Id)
    | Invalid
    | Claimed(claim: Claim)
    | Tokened(claim: Claim, token: Id)
    | Indexed(claim: Claim, token: Id)
    | Won(won: Id, token: Id)
    | Found(found: Id)
    | Recovered(from: Id, token: Id)
    | Refused

  datatype Request = Request(account: Id, code: nat, key: Id, stage: Stage)

  datatype Receipt = Receipt(otp: Id, key: Id, token: Id)

  /**
   * `makers` and `receipts` are history variables: for which row and key a token was created, and
   * which tokens were handed to which key. No step reads `receipts`; a new token is one never made.
   */
  datatype Auth = Auth(
    now: int,
    rows: map<Id, Row>,
    index: map<Slot, Id>,
    makers: map<Id, Slot>,
    requests: map<Id, Request>,
    receipts: set<Receipt>)

  // ---- the statements

  /** A latest unconsumed code of the account. */
  predicate IsLatest(rows: map<Id, Row>, account: Id, o: Id)
  {
    && o in rows && rows[o].account == account && rows[o].consumedAt.None?
    && forall p | p in rows && rows[p].account == account && rows[p].consumedAt.None? :: rows[p].issued <= rows[o].issued
  }

  predicate NoneOpen(rows: map<Id, Row>, account: Id)
  {
    forall p | p in rows && rows[p].account == account :: rows[p].consumedAt.Some?
  }

  /** What the check makes of the latest code it read. */
  function Checked(row: Row, o: Id, code: nat, now: int): Stage
  {
    if row.attempts >= MAX_ATTEMPTS then Refused
    else if row.expiresAt < now then Refused
    else if row.code != code then Wrong(o)
    else Claimed(Claim(o, row.attempts))
  }

  /** The consuming UPDATE matches: unconsumed, still valid, and no guess counted since the check. */
  predicate CanConsume(rows: map<Id, Row>, now: int, c: Claim)
  {
    c.otp in rows && rows[c.otp].consumedAt.None? && rows[c.otp].expiresAt > now && rows[c.otp].attempts == c.attempts
  }

  /** A row this very key has consumed with this very code. */
  predicate ConsumedBy(rows: map<Id, Row>, account: Id, code: nat, key: Id, o: Id)
  {
    && o in rows && rows[o].account == account && rows[o].code == code
    && rows[o].consumedAt.Some? && rows[o].consumedByKey == Some(key)
  }

  /** The code fits the account's latest one, in time and before too many guesses. */
  predicate RightCode(rows: map<Id, Row>, account: Id, code: nat, now: int)
  {
    && !NoneOpen(rows, account)
    && forall o | o in rows && IsLatest(rows, account, o) ::
         rows[o].code == code && rows[o].expiresAt > now && rows[o].attempts < MAX_ATTEMPTS
  }

  // ---- steps

  datatype Op =
    | Issue(o: Id, row: Row)
    | Arrive(r: Id, account: Id, code: nat, key: Id)
    | Check(r: Id, latest: Option<Id>)
    | CountGuess(r: Id)
    | CreateToken(r: Id, token: Id)
    | WriteIndex(r: Id)
    | Consume(r: Id)
    | FindConsumed(r: Id, record: Option<Id>)
    | Recover(r: Id)
    | Respond(r: Id)
    | Crash(r: Id)
    | Forget(slot: Slot)
    | UsedElsewhere(o: Id)
    | Tick(elapsed: nat)

  predicate Enabled(s: Auth, op: Op)
  {
    match op
    case Issue(o, row) => o !in s.rows && row.attempts == 0 && row.consumedAt.None? && row.consumedByKey.None?
    case Arrive(r, _, _, _) => r !in s.requests
    case Check(r, latest) => r in s.requests && s.requests[r].stage.Fresh?
      && (match latest
          case Some(o) => IsLatest(s.rows, s.requests[r].account, o)
          case None => NoneOpen(s.rows, s.requests[r].account))
    case CountGuess(r) => r in s.requests && s.requests[r].stage.Wrong?
    case CreateToken(r, token) => r in s.requests && s.requests[r].stage.Claimed? && token !in s.makers
    case WriteIndex(r) => r in s.requests && s.requests[r].stage.Tokened?
    case Consume(r) => r in s.requests && s.requests[r].stage.Indexed?
    case FindConsumed(r, record) => r in s.requests && s.requests[r].stage.Invalid?
      && (record.Some? ==>
            ConsumedBy(s.rows, s.requests[r].account, s.requests[r].code, s.requests[r].key, record.value))
    case Recover(r) => r in s.requests && s.requests[r].stage.Found?
    case Respond(r) => r in s.requests && (s.requests[r].stage.Won? || s.requests[r].stage.Recovered?)
    case Crash(r) => r in s.requests
    case Forget(_) => true
    case UsedElsewhere(o) => o in s.rows && s.rows[o].consumedAt.None?
    case Tick(_) => true
  }

  function Advance(s: Auth, r: Id, stage: Stage): Auth
    requires r in s.requests
  {
    s.(requests := s.requests[r := s.requests[r].(stage := stage)])
  }

  function CountGuessStep(s: Auth, r: Id): Auth
    requires r in s.requests && s.requests[r].stage.Wrong?
  {
    var o := s.requests[r].stage.otp;
    var counted := if o in s.rows then s.(rows := s.rows[o := s.rows[o].(attempts := s.rows[o].attempts + 1)]) else s;
    Advance(counted, r, Invalid)
  }

  function CreateTokenStep(s: Auth, r: Id, token: Id): Auth
    requires r in s.requests && s.requests[r].stage.Claimed?
  {
    var c := s.requests[r].stage.claim;
    Advance(s.(makers := s.makers[token := Slot(c.otp, s.requests[r].key)]), r, Tokened(c, token))
  }

  function WriteIndexStep(s: Auth, r: Id): Auth
    requires r in s.requests && s.requests[r].stage.Tokened?
  {
    var q := s.requests[r];
    Advance(s.(index := s.index[Slot(q.stage.claim.otp, q.key) := q.stage.token]), r, Indexed(q.stage.claim, q.stage.token))
  }

  function ConsumeStep(s: Auth, r: Id): Auth
    requires r in s.requests && s.requests[r].stage.Indexed?
  {
    var q := s.requests[r];
    var c := q.stage.claim;
    if CanConsume(s.rows, s.now, c) then
      Advance(s.(rows := s.rows[c.otp := s.rows[c.otp].(consumedAt := Some(s.now), consumedByKey := Some(q.key))]), r,
              Won(c.otp, q.stage.token))
    else Advance(s, r, Refused)
  }

  function RecoverStep(s: Auth, r: Id): Auth
    requires r in s.requests && s.requests[r].stage.Found?
  {
    var slot := Slot(s.requests[r].stage.found, s.requests[r].key);
    Advance(s, r, if slot in s.index then Recovered(slot.otp, s.index[slot]) else Refused)
  }

  /** The response leaves; the request is over. */
  function RespondStep(s: Auth, r: Id): Auth
    requires r in s.requests && (s.requests[r].stage.Won? || s.requests[r].stage.Recovered?)
  {
    var q := s.requests[r];
    var o := if q.stage.Won? then q.stage.won else q.stage.from;
    s.(requests := s.requests - {r}, receipts := s.receipts + {Receipt(o, q.key, q.stage.token)})
  }

  function Step(s: Auth, op: Op): Auth
    requires Enabled(s, op)
  {
    match op
    case Issue(o, row) => s.(rows := s.rows[o := row])
    case Arrive(r, account, code, key) => s.(requests := s.requests[r := Request(account, code, key, Fresh)])
    case Check(r, latest) =>
      Advance(s, r, if latest.None? then Invalid else Checked(s.rows[latest.value], latest.value, s.requests[r].code, s.now))
    case CountGuess(r) => CountGuessStep(s, r)
    case CreateToken(r, token) => CreateTokenStep(s, r, token)
    case WriteIndex(r) => WriteIndexStep(s, r)
    case Consume(r) => ConsumeStep(s, r)
    case FindConsumed(r, record) => Advance(s, r, if record.Some? then Found(record.value) else Refused)
    case Recover(r) => RecoverStep(s, r)
    case Respond(r) => RespondStep(s, r)
    case Crash(r) => s.(requests := s.requests - {r})
    case Forget(slot) => s.(index := s.index - {slot})
    case UsedElsewhere(o) => s.(rows := s.rows[o := s.rows[o].(consumedAt := Some(s.now), consumedByKey := None)])
    case Tick(elapsed) => s.(now := s.now + elapsed)
  }

  // ---- what holds throughout

  predicate MadeFor(s: Auth, token: Id, otp: Id, key: Id)
  {
    token in s.makers && s.makers[token] == Slot(otp, key)
  }

  predicate TakenBy(s: Auth, otp: Id, key: Id)
  {
    otp in s.rows && s.rows[otp].consumedAt.Some? && s.rows[otp].consumedByKey == Some(key)
  }

  predicate RequestOk(s: Auth, q: Request)
  {
    match q.stage
    case Tokened(c, t) => MadeFor(s, t, c.otp, q.key)
    case Indexed(c, t) => MadeFor(s, t, c.otp, q.key)
    case Won(o, t) => MadeFor(s, t, o, q.key) && TakenBy(s, o, q.key)
    case Found(o) => TakenBy(s, o, q.key)
    case Recovered(o, t) => MadeFor(s, t, o, q.key) && TakenBy(s, o, q.key)
    case _ => true
  }

  predicate OtpInv(s: Auth)
  {
    && (forall r | r in s.requests :: RequestOk(s, s.requests[r]))
    && (forall slot | slot in s.index :: MadeFor(s, s.index[slot], slot.otp, slot.key))
    && (forall c | c in s.receipts :: MadeFor(s, c.token, c.otp, c.key) && TakenBy(s, c.otp, c.key))
  }

  /** Consumption is final, and a token's maker never changes. */
  predicate Extends(s: Auth, after: Auth)
  {
    && (forall t | t in s.makers :: t in after.makers && after.makers[t] == s.makers[t])
    && (forall o | o in s.rows && s.rows[o].consumedAt.Some? ::
          o in after.rows && after.rows[o].consumedAt == s.rows[o].consumedAt
          && after.rows[o].consumedByKey == s.rows[o].consumedByKey)
  }

  lemma StepExtends(s: Auth, op: Op)
    requires Enabled(s, op)
    ensures Extends(s, Step(s, op))
  {
  }

  lemma StepKeepsIndex(s: Auth, op: Op)
    requires OtpInv(s) && Enabled(s, op)
    ensures forall slot | slot in Step(s, op).index :: MadeFor(Step(s, op), Step(s, op).index[slot], slot.otp, slot.key)
  {
    StepExtends(s, op);
    if op.WriteIndex? { assert RequestOk(s, s.requests[op.r]); }
  }

  lemma StepKeepsReceipts(s: Auth, op: Op)
    requires OtpInv(s) && Enabled(s, op)
    ensures var after := Step(s, op);
            forall c | c in after.receipts :: MadeFor(after, c.token, c.otp, c.key) && TakenBy(after, c.otp, c.key)
  {
    StepExtends(s, op);
    if op.Respond? { assert RequestOk(s, s.requests[op.r]); }
  }

  lemma ExtendsKeepsRequest(s: Auth, after: Auth, q: Request)
    requires Extends(s, after) && RequestOk(s, q)
    ensures RequestOk(after, q)
  {
  }

  /** Is `r` the request that takes the step? */
  predicate Moves(op: Op, r: Id)
  {
    match op
    case Arrive(q, _, _, _) => q == r
    case Check(q, _) => q == r
    case CountGuess(q) => q == r
    case CreateToken(q, _) => q == r
    case WriteIndex(q) => q == r
    case Consume(q) => q == r
    case FindConsumed(q, _) => q == r
    case Recover(q) => q == r
    case _ => false
  }

  lemma OthersStandStill(s: Auth, op: Op, r: Id)
    requires Enabled(s, op) && !Moves(op, r) && r in Step(s, op).requests
    ensures r in s.requests && Step(s, op).requests[r] == s.requests[r]
  {
  }

  lemma MoverStaysOk(s: Auth, op: Op, r: Id)
    requires OtpInv(s) && Enabled(s, op) && Moves(op, r)
    ensures r in Step(s, op).requests && RequestOk(Step(s, op), Step(s, op).requests[r])
  {
    if r in s.requests { assert RequestOk(s, s.requests[r]); }
  }

  lemma StepKeepsRequests(s: Auth, op: Op, r: Id)
    requires OtpInv(s) && Enabled(s, op) && r in Step(s, op).requests
    ensures RequestOk(Step(s, op), Step(s, op).requests[r])
  {
    if Moves(op, r) {
      MoverStaysOk(s, op, r);
    } else {
      OthersStandStill(s, op, r);
      StepExtends(s, op);
      ExtendsKeepsRequest(s, Step(s, op), s.requests[r]);
    }
  }

  lemma StepKeepsInv(s: Auth, op: Op)
    requires OtpInv(s) && Enabled(s, op)
    ensures OtpInv(Step(s, op))
  {
    StepKeepsIndex(s, op);
    StepKeepsReceipts(s, op);
    forall r | r in Step(s, op).requests ensures RequestOk(Step(s, op), Step(s, op).requests[r]) {
      StepKeepsRequests(s, op, r);
    }
  }

  ghost predicate Runs(s: Auth, ops: seq<Op>)
    decreases |ops|
  {
    ops == [] || (Enabled(s, ops[0]) && Runs(Step(s, ops[0]), ops[1..]))
  }

  ghost function After(s: Auth, ops: seq<Op>): Auth
    requires Runs(s, ops)
    decreases |ops|
  {
    if ops == [] then s else After(Step(s, ops[0]), ops[1..])
  }

  function Empty(now: int): Auth
  {
    Auth(now, map[], map[], map[], map[], {})
  }

  lemma {:induction false} RunKeepsInv(s: Auth, ops: seq<Op>)
    requires OtpInv(s) && Runs(s, ops)
    ensures OtpInv(After(s, ops))
    decreases |ops|
  {
    if ops != [] {
      StepKeepsInv(s, ops[0]);
      RunKeepsInv(Step(s, ops[0]), ops[1..]);
    }
  }

  /** However verify requests, guesses, crashes and retries interleave, one code serves at most one idempotency key. */
  lemma OneWinnerPerCode(now: int, ops: seq<Op>, a: Receipt, b: Receipt)
    requires Runs(Empty(now), ops)
    requires a in After(Empty(now), ops).receipts && b in After(Empty(now), ops).receipts && a.otp == b.otp
    ensures a.key == b.key
  {
    RunKeepsInv(Empty(now), ops);
  }

  /** Whatever a request is handed, first time or recovered, was created under its own key, for that code. */
  lemma TokensAreOnesOwn(now: int, ops: seq<Op>, c: Receipt)
    requires Runs(Empty(now), ops) && c in After(Empty(now), ops).receipts
    ensures var s := After(Empty(now), ops);
            c.token in s.makers && s.makers[c.token] == Slot(c.otp, c.key) && TakenBy(s, c.otp, c.key)
  {
    RunKeepsInv(Empty(now), ops);
  }

  // ---- wrong guesses

  function Attempts(s: Auth, o: Id): nat
  {
    if o in s.rows then s.rows[o].attempts else 0
  }

  lemma StepKeepsAttempts(s: Auth, op: Op, o: Id)
    requires Enabled(s, op) && o in s.rows
    ensures o in Step(s, op).rows && Attempts(s, o) <= Attempts(Step(s, op), o)
    ensures op.CountGuess? && s.requests[op.r].stage.otp == o ==> Attempts(s, o) < Attempts(Step(s, op), o)
  {
  }

  lemma {:induction false} RunKeepsAttempts(s: Auth, ops: seq<Op>, o: Id)
    requires Runs(s, ops) && o in s.rows
    ensures o in After(s, ops).rows && Attempts(s, o) <= Attempts(After(s, ops), o)
    decreases |ops|
  {
    if ops != [] {
      StepKeepsAttempts(s, ops[0], o);
      RunKeepsAttempts(Step(s, ops[0]), ops[1..], o);
    }
  }

  /** Does the run count a wrong guess against `o`? */
  ghost predicate CountsGuess(s: Auth, ops: seq<Op>, o: Id)
    requires Runs(s, ops)
    decreases |ops|
  {
    ops != []
    && ((ops[0].CountGuess? && s.requests[ops[0].r].stage.otp == o) || CountsGuess(Step(s, ops[0]), ops[1..], o))
  }

  lemma {:induction false} GuessRaisesAttempts(s: Auth, ops: seq<Op>, o: Id)
    requires Runs(s, ops) && o in s.rows && CountsGuess(s, ops, o)
    ensures Attempts(s, o) < Attempts(After(s, ops), o)
    decreases |ops|
  {
    StepKeepsAttempts(s, ops[0], o);
    if ops[0].CountGuess? && s.requests[ops[0].r].stage.otp == o {
      RunKeepsAttempts(Step(s, ops[0]), ops[1..], o);
    } else {
      GuessRaisesAttempts(Step(s, ops[0]), ops[1..], o);
    }
  }

  /**
   * From the moment a request's check succeeds: if its consume later matches, nobody's wrong guess
   * was counted against that code in between, and the code had not run out.
   */
  lemma ConsumeMeansNoGuessSince(s: Auth, r: Id, o: Id, ops: seq<Op>)
    requires Enabled(s, Check(r, Some(o))) && Step(s, Check(r, Some(o))).requests[r].stage.Claimed?
    requires Runs(Step(s, Check(r, Some(o))), ops)
    requires var last := After(Step(s, Check(r, Some(o))), ops);
             Enabled(last, Consume(r)) && last.requests[r].stage.claim == Step(s, Check(r, Some(o))).requests[r].stage.claim
             && Step(last, Consume(r)).requests[r].stage.Won?
    ensures !CountsGuess(Step(s, Check(r, Some(o))), ops, o)
    ensures var last := After(Step(s, Check(r, Some(o))), ops); o in last.rows && last.rows[o].expiresAt > last.now
  {
    var claimed := Step(s, Check(r, Some(o)));
    if CountsGuess(claimed, ops, o) { GuessRaisesAttempts(claimed, ops, o); }
  }

  // ---- recovery

  lemma {:induction false} RunExtends(s: Auth, ops: seq<Op>)
    requires Runs(s, ops)
    ensures Extends(s, After(s, ops))
    decreases |ops|
  {
    if ops != [] {
      StepExtends(s, ops[0]);
      RunExtends(Step(s, ops[0]), ops[1..]);
    }
  }

  /**
   * Once some request has found its key to have consumed a code, no request of another key ever finds
   * that of its own.
   */
  lemma RecoveryIsForTheWinner(s: Auth, r: Id, o: Id, ops: seq<Op>, q: Id)
    requires Runs(s, ops)
    requires Enabled(s, FindConsumed(r, Some(o))) && Enabled(After(s, ops), FindConsumed(q, Some(o)))
    ensures After(s, ops).requests[q].key == s.requests[r].key
  {
    RunExtends(s, ops);
  }

  /** Nothing in the run drops the entry of `slot`, and no request writes another token into it. */
  ghost predicate LeavesSlot(s: Auth, ops: seq<Op>, slot: Slot)
    requires Runs(s, ops)
    decreases |ops|
  {
    ops == [] ||
    (ops[0] != Forget(slot)
     && !(ops[0].WriteIndex? && Slot(s.requests[ops[0].r].stage.claim.otp, s.requests[ops[0].r].key) == slot)
     && LeavesSlot(Step(s, ops[0]), ops[1..], slot))
  }

  lemma {:induction false} SlotKept(s: Auth, ops: seq<Op>, slot: Slot)
    requires Runs(s, ops) && LeavesSlot(s, ops, slot) && slot in s.index
    ensures slot in After(s, ops).index && After(s, ops).index[slot] == s.index[slot]
    decreases |ops|
  {
    if ops != [] { SlotKept(Step(s, ops[0]), ops[1..], slot); }
  }

  /**
   * A request writes its entry; whatever follows (its consume, its crash, other requests, guesses), a
   * retry of the key that comes to recover that code gets that very token, unless the entry was dropped
   * or overwritten under the same key. The token was made for that code and key.
   */
  lemma RetryRecoversTheToken(s: Auth, r: Id, ops: seq<Op>, q: Id)
    requires OtpInv(s) && Enabled(s, WriteIndex(r)) && Runs(Step(s, WriteIndex(r)), ops)
    requires LeavesSlot(Step(s, WriteIndex(r)), ops, Slot(s.requests[r].stage.claim.otp, s.requests[r].key))
    requires var last := After(Step(s, WriteIndex(r)), ops);
             Enabled(last, Recover(q)) && last.requests[q].key == s.requests[r].key
             && last.requests[q].stage.found == s.requests[r].stage.claim.otp
    ensures var o, t := s.requests[r].stage.claim.otp, s.requests[r].stage.token;
            var last := After(Step(s, WriteIndex(r)), ops);
            Step(last, Recover(q)).requests[q].stage == Recovered(o, t) && MadeFor(last, t, o, s.requests[r].key)
  {
    var written := Step(s, WriteIndex(r));
    StepKeepsInv(s, WriteIndex(r));
    SlotKept(written, ops, Slot(s.requests[r].stage.claim.otp, s.requests[r].key));
    RunKeepsInv(written, ops);
  }

  // ---- one token per code

  /** `t` is, or may still be, handed out for code `o`, which `key` has consumed. */
  predicate Bears(s: Auth, o: Id, key: Id, t: Id)
  {
    && TakenBy(s, o, key)
    && ((Slot(o, key) in s.index && s.index[Slot(o, key)] == t) || Receipt(o, key, t) in s.receipts || Carried(s, o, key, t))
  }

  predicate Carries(q: Request, o: Id, key: Id, t: Id)
  {
    q.key == key && (q.stage == Won(o, t) || q.stage == Recovered(o, t))
  }

  /** A request is about to respond with `t`. */
  predicate Carried(s: Auth, o: Id, key: Id, t: Id)
  {
    exists r | r in s.requests :: Carries(s.requests[r], o, key, t)
  }

  ghost predicate OneBorne(s: Auth)
  {
    forall o, key, t, u | Bears(s, o, key, t) && Bears(s, o, key, u) :: t == u
  }

  /** The code's consume will match, and its entry holds another request's token. */
  predicate ConsumesPastEntry(s: Auth, r: Id)
    requires r in s.requests && s.requests[r].stage.Indexed?
  {
    var q := s.requests[r];
    var slot := Slot(q.stage.claim.otp, q.key);
    CanConsume(s.rows, s.now, q.stage.claim) && slot in s.index && s.index[slot] != q.stage.token
  }

  /** The entry is written after its key has consumed the code, with a token other than one on its way out or out. */
  ghost predicate WritesPastWinner(s: Auth, r: Id)
    requires r in s.requests && s.requests[r].stage.Tokened?
  {
    var q := s.requests[r];
    var o := q.stage.claim.otp;
    TakenBy(s, o, q.key)
    && exists u :: u != q.stage.token && (Receipt(o, q.key, u) in s.receipts || Carried(s, o, q.key, u))
  }

  /** No request's entry gets between another's entry and its response. */
  ghost predicate Clean(s: Auth, op: Op)
    requires Enabled(s, op)
  {
    match op
    case Consume(r) => !ConsumesPastEntry(s, r)
    case WriteIndex(r) => !WritesPastWinner(s, r)
    case _ => true
  }

  /** Only a consume makes a code its key's. */
  lemma TakenByConsume(s: Auth, op: Op, o: Id, key: Id)
    requires Enabled(s, op) && !TakenBy(s, o, key) && TakenBy(Step(s, op), o, key)
    ensures op.Consume? && s.requests[op.r].key == key && s.requests[op.r].stage.claim.otp == o
    ensures o in s.rows && s.rows[o].consumedAt.None? && Step(s, op).requests[op.r].stage.Won?
  {
  }

  /** What a step brings about for a code already consumed: an overwriting entry, or nothing. */
  lemma NewBearer(s: Auth, op: Op, o: Id, key: Id, t: Id)
    requires OtpInv(s) && Enabled(s, op) && TakenBy(s, o, key) && Bears(Step(s, op), o, key, t) && !Bears(s, o, key, t)
    ensures op.WriteIndex? && s.requests[op.r].key == key && s.requests[op.r].stage.claim.otp == o
            && t == s.requests[op.r].stage.token
  {
    var after := Step(s, op);
    if r :| r in after.requests && Carries(after.requests[r], o, key, t) {
      if !Moves(op, r) { OthersStandStill(s, op, r); }
    }
  }

  /** For the code just consumed: the consumer's token and whatever its entry holds. */
  lemma FirstBearers(s: Auth, op: Op, o: Id, key: Id, t: Id)
    requires OtpInv(s) && Enabled(s, op) && !TakenBy(s, o, key) && Bears(Step(s, op), o, key, t)
    ensures op.Consume? && s.requests[op.r].key == key && s.requests[op.r].stage.claim.otp == o
    ensures CanConsume(s.rows, s.now, s.requests[op.r].stage.claim)
    ensures t == s.requests[op.r].stage.token || (Slot(o, key) in s.index && s.index[Slot(o, key)] == t)
  {
    TakenByConsume(s, op, o, key);
    var after := Step(s, op);
    if r :| r in after.requests && Carries(after.requests[r], o, key, t) {
      if r != op.r { OthersStandStill(s, op, r); }
    }
  }

  /** Carriers and receipts outlast every step but their own request's end. */
  lemma WriteKeepsCarried(s: Auth, r: Id, o: Id, key: Id, u: Id)
    requires Enabled(s, WriteIndex(r)) && Carried(s, o, key, u)
    ensures Carried(Step(s, WriteIndex(r)), o, key, u)
  {
    var q :| q in s.requests && Carries(s.requests[q], o, key, u);
    assert q != r && Step(s, WriteIndex(r)).requests[q] == s.requests[q];
  }

  lemma CleanKeepsOne(s: Auth, op: Op)
    requires OtpInv(s) && OneBorne(s) && Enabled(s, op) && Clean(s, op)
    ensures OneBorne(Step(s, op))
  {
    hide Step, OtpInv;
    forall o, key, t, u | Bears(Step(s, op), o, key, t) && Bears(Step(s, op), o, key, u) ensures t == u {
      if TakenBy(s, o, key) {
        CleanKeepsTaken(s, op, o, key, t, u);
      } else {
        FirstBearers(s, op, o, key, t);
        FirstBearers(s, op, o, key, u);
      }
    }
  }

  lemma CleanKeepsTaken(s: Auth, op: Op, o: Id, key: Id, t: Id, u: Id)
    requires OtpInv(s) && OneBorne(s) && Enabled(s, op) && Clean(s, op) && TakenBy(s, o, key)
    requires Bears(Step(s, op), o, key, t) && Bears(Step(s, op), o, key, u)
    ensures t == u
  {
    if !Bears(s, o, key, t) {
      NewBearer(s, op, o, key, t);
      AfterOverwrite(s, op.r, u);
    } else if !Bears(s, o, key, u) {
      NewBearer(s, op, o, key, u);
      AfterOverwrite(s, op.r, t);
    }
  }

  /** After the entry is overwritten, what is borne is the new token, or was out or on its way out before. */
  lemma AfterOverwrite(s: Auth, r: Id, u: Id)
    requires Enabled(s, WriteIndex(r))
    requires var q := s.requests[r]; Bears(Step(s, WriteIndex(r)), q.stage.claim.otp, q.key, u)
    ensures var q := s.requests[r];
            var o := q.stage.claim.otp;
            u == q.stage.token || Receipt(o, q.key, u) in s.receipts || Carried(s, o, q.key, u)
  {
    var q, after := s.requests[r], Step(s, WriteIndex(r));
    var o := q.stage.claim.otp;
    if Carried(after, o, q.key, u) {
      var p :| p in after.requests && Carries(after.requests[p], o, q.key, u);
      if p != r { OthersStandStill(s, WriteIndex(r), p); }
    }
  }

  lemma UncleanBreaksOne(s: Auth, op: Op)
    requires Enabled(s, op) && !Clean(s, op)
    ensures !OneBorne(Step(s, op))
  {
    var after := Step(s, op);
    var q := s.requests[op.r];
    var o, key, t := q.stage.claim.otp, q.key, q.stage.token;
    if op.Consume? {
      assert after.requests[op.r].stage == Won(o, t) && Carries(after.requests[op.r], o, key, t);
      assert Bears(after, o, key, t) && Bears(after, o, key, s.index[Slot(o, key)]);
    } else {
      var u :| u != t && (Receipt(o, key, u) in s.receipts || Carried(s, o, key, u));
      if Carried(s, o, key, u) { WriteKeepsCarried(s, op.r, o, key, u); }
      assert Bears(after, o, key, t) && Bears(after, o, key, u);
    }
  }

  /** A step keeps one token per code exactly when it is clean. */
  lemma StepKeepsOneIff(s: Auth, op: Op)
    requires OtpInv(s) && OneBorne(s) && Enabled(s, op)
    ensures OneBorne(Step(s, op)) <==> Clean(s, op)
  {
    if Clean(s, op) { CleanKeepsOne(s, op); } else { UncleanBreaksOne(s, op); }
  }

  ghost predicate AlwaysOne(s: Auth, ops: seq<Op>)
    requires Runs(s, ops)
    decreases |ops|
  {
    OneBorne(s) && (ops == [] || AlwaysOne(Step(s, ops[0]), ops[1..]))
  }

  ghost predicate AllClean(s: Auth, ops: seq<Op>)
    requires Runs(s, ops)
    decreases |ops|
  {
    ops == [] || (Clean(s, ops[0]) && AllClean(Step(s, ops[0]), ops[1..]))
  }

  lemma {:induction false} RunKeepsOneIff(s: Auth, ops: seq<Op>)
    requires OtpInv(s) && OneBorne(s) && Runs(s, ops)
    ensures AlwaysOne(s, ops) <==> AllClean(s, ops)
    decreases |ops|
  {
    hide OtpInv, OneBorne, Clean, Step, Enabled;
    if ops != [] {
      StepKeepsInv(s, ops[0]);
      StepKeepsOneIff(s, ops[0]);
      if OneBorne(Step(s, ops[0])) { RunKeepsOneIff(Step(s, ops[0]), ops[1..]); }
    }
  }

  lemma {:induction false} AlwaysOneAtLast(s: Auth, ops: seq<Op>)
    requires Runs(s, ops) && AlwaysOne(s, ops)
    ensures OneBorne(After(s, ops))
    decreases |ops|
  {
    if ops != [] { AlwaysOneAtLast(Step(s, ops[0]), ops[1..]); }
  }

  /** From the start: at most one token per code is ever out or on its way out, exactly when every step is clean. */
  lemma OneTokenIffClean(now: int, ops: seq<Op>)
    requires Runs(Empty(now), ops)
    ensures AlwaysOne(Empty(now), ops) <==> AllClean(Empty(now), ops)
  {
    RunKeepsOneIff(Empty(now), ops);
  }

  /** Two responses for one code carry different tokens only if some step was not clean. */
  lemma OneTokenPerCode(now: int, ops: seq<Op>, a: Receipt, b: Receipt)
    requires Runs(Empty(now), ops) && AllClean(Empty(now), ops)
    requires a in After(Empty(now), ops).receipts && b in After(Empty(now), ops).receipts && a.otp == b.otp
    ensures a == b
  {
    OneWinnerPerCode(now, ops, a, b);
    RunKeepsInv(Empty(now), ops);
    OneTokenIffClean(now, ops);
    AlwaysOneAtLast(Empty(now), ops);
    var s := After(Empty(now), ops);
    assert Bears(s, a.otp, a.key, a.token) && Bears(s, a.otp, a.key, b.token);
  }

  // ---- once two tokens are about, both can go out

  lemma {:induction false} RunsOn(s: Auth, first: seq<Op>, more: seq<Op>)
    requires Runs(s, first) && Runs(After(s, first), more)
    ensures Runs(s, first + more) && After(s, first + more) == After(After(s, first), more)
    decreases |first|
  {
    hide Step, Enabled;
    if first == [] {
      assert first + more == more;
    } else {
      assert (first + more)[0] == first[0] && (first + more)[1..] == first[1..] + more;
      RunsOn(Step(s, first[0]), first[1..], more);
    }
  }

  lemma RunOfOne(s: Auth, op: Op)
    requires Enabled(s, op)
    ensures Runs(s, [op]) && After(s, [op]) == Step(s, op)
  {
    assert [op][1..] == [] && Runs(Step(s, op), []) && After(Step(s, op), []) == Step(s, op);
  }

  /** The account's open codes. */
  function OpenCodes(rows: map<Id, Row>, account: Id): set<Id>
  {
    set o | o in rows && rows[o].account == account && rows[o].consumedAt.None?
  }

  /** Every open code of an account can be used up elsewhere; codes already consumed stay as they are. */
  lemma {:induction false} CloseCodes(s: Auth, account: Id) returns (ops: seq<Op>)
    ensures Runs(s, ops) && After(s, ops) == s.(rows := After(s, ops).rows) && NoneOpen(After(s, ops).rows, account)
    ensures forall o | o in s.rows && s.rows[o].consumedAt.Some? :: o in After(s, ops).rows && After(s, ops).rows[o] == s.rows[o]
    decreases |OpenCodes(s.rows, account)|
  {
    if OpenCodes(s.rows, account) == {} {
      ops := [];
      forall p | p in s.rows && s.rows[p].account == account ensures s.rows[p].consumedAt.Some? {
        assert p !in OpenCodes(s.rows, account);
      }
    } else {
      var p :| p in OpenCodes(s.rows, account);
      var mid := Step(s, UsedElsewhere(p));
      assert OpenCodes(mid.rows, account) == OpenCodes(s.rows, account) - {p};
      var rest := CloseCodes(mid, account);
      ops := [UsedElsewhere(p)] + rest;
      assert ops[0] == UsedElsewhere(p) && ops[1..] == rest;
    }
  }

  ghost function Beyond(ids: set<Id>): (b: Id)
    ensures forall r | r in ids :: r < b
  {
    if ids == {} then 0
    else
      var r :| r in ids;
      var rest := Beyond(ids - {r});
      assert forall q | q in ids :: q == r || q in ids - {r};
      if rest <= r then r + 1 else rest
  }

  /** The key asks again, with no code open: it is handed what the entry holds. */
  lemma RetryHandsOut(s: Auth, o: Id, key: Id) returns (ops: seq<Op>)
    requires TakenBy(s, o, key) && Slot(o, key) in s.index && NoneOpen(s.rows, s.rows[o].account)
    ensures Runs(s, ops) && After(s, ops) == s.(receipts := s.receipts + {Receipt(o, key, s.index[Slot(o, key)])})
  {
    var r, account, code := Beyond(s.requests.Keys), s.rows[o].account, s.rows[o].code;
    var t := s.index[Slot(o, key)];
    var s1 := s.(requests := s.requests[r := Request(account, code, key, Fresh)]);
    var s2 := s.(requests := s.requests[r := Request(account, code, key, Invalid)]);
    var s3 := s.(requests := s.requests[r := Request(account, code, key, Found(o))]);
    RecoverAndRespond(s, r, Request(account, code, key, Found(o)), o, t);
    FollowedBy(s2, FindConsumed(r, Some(o)), [Recover(r), Respond(r)], s3);
    FollowedBy(s1, Check(r, None), [FindConsumed(r, Some(o)), Recover(r), Respond(r)], s2);
    FollowedBy(s, Arrive(r, account, code, key), [Check(r, None), FindConsumed(r, Some(o)), Recover(r), Respond(r)], s1);
    ops := [Arrive(r, account, code, key), Check(r, None), FindConsumed(r, Some(o)), Recover(r), Respond(r)];
  }

  lemma RecoverAndRespond(s: Auth, r: Id, q: Request, o: Id, t: Id)
    requires r !in s.requests && q.stage == Found(o) && Slot(o, q.key) in s.index && s.index[Slot(o, q.key)] == t
    ensures var found := s.(requests := s.requests[r := q]);
            Runs(found, [Recover(r), Respond(r)])
            && After(found, [Recover(r), Respond(r)]) == s.(receipts := s.receipts + {Receipt(o, q.key, t)})
  {
    var recovered := s.(requests := s.requests[r := q.(stage := Recovered(o, t))]);
    var last := s.(receipts := s.receipts + {Receipt(o, q.key, t)});
    assert recovered.requests - {r} == s.requests;
    FollowedBy(recovered, Respond(r), [], last);
    FollowedBy(s.(requests := s.requests[r := q]), Recover(r), [Respond(r)], recovered);
  }

  lemma FollowedBy(s: Auth, op: Op, rest: seq<Op>, after: Auth)
    requires Enabled(s, op) && Step(s, op) == after && Runs(after, rest)
    ensures Runs(s, [op] + rest) && After(s, [op] + rest) == After(after, rest)
  {
    assert ([op] + rest)[0] == op && ([op] + rest)[1..] == rest;
  }

  /** A token that is about can be handed out, and every other that is about stays about or is out. */
  lemma HandOut(s: Auth, o: Id, key: Id, t: Id, u: Id) returns (ops: seq<Op>)
    requires Bears(s, o, key, t) && Bears(s, o, key, u) && t != u
    ensures Runs(s, ops) && Receipt(o, key, t) in After(s, ops).receipts && s.receipts <= After(s, ops).receipts
    ensures Bears(After(s, ops), o, key, u)
  {
    if Receipt(o, key, t) in s.receipts {
      ops := [];
    } else if r :| r in s.requests && Carries(s.requests[r], o, key, t) {
      ops := [Respond(r)];
      RunOfOne(s, Respond(r));
      if Carried(s, o, key, u) {
        var q :| q in s.requests && Carries(s.requests[q], o, key, u);
        assert q != r && q in After(s, ops).requests && Carries(After(s, ops).requests[q], o, key, u);
      }
    } else {
      var close := CloseCodes(s, s.rows[o].account);
      var closed := After(s, close);
      var retry := RetryHandsOut(closed, o, key);
      ops := close + retry;
      RunsOn(s, close, retry);
      if Carried(s, o, key, u) {
        var q :| q in s.requests && Carries(s.requests[q], o, key, u);
        assert q in After(s, ops).requests && Carries(After(s, ops).requests[q], o, key, u);
      }
    }
  }

  /** So the guard asks no more than it must: after a step that is not clean, a code can yield two tokens. */
  lemma TwoBorneTwoReceipts(s: Auth) returns (ops: seq<Op>, a: Receipt, b: Receipt)
    requires !OneBorne(s)
    ensures Runs(s, ops) && a in After(s, ops).receipts && b in After(s, ops).receipts && a.otp == b.otp && a.token != b.token
  {
    var o, key, t, u :| Bears(s, o, key, t) && Bears(s, o, key, u) && t != u;
    var first := HandOut(s, o, key, t, u);
    var mid := After(s, first);
    assert Bears(mid, o, key, t);
    var second := HandOut(mid, o, key, u, t);
    RunsOn(s, first, second);
    ops, a, b := first + second, Receipt(o, key, t), Receipt(o, key, u);
  }

  // ---- requests of one key for one account that do not overlap

  /** A request on its way to consume has a claim its key has not consumed yet, and its own token in the entry. */
  predicate ClaimOk(s: Auth, q: Request)
  {
    match q.stage
    case Claimed(c) => OwnClaim(s, q, c)
    case Tokened(c, _) => OwnClaim(s, q, c)
    case Indexed(c, t) => OwnClaim(s, q, c) && (Slot(c.otp, q.key) in s.index ==> s.index[Slot(c.otp, q.key)] == t)
    case _ => true
  }

  predicate OwnClaim(s: Auth, q: Request, c: Claim)
  {
    c.otp in s.rows && s.rows[c.otp].account == q.account && !TakenBy(s, c.otp, q.key)
  }

  predicate Apart(q: Request, p: Request)
  {
    q.key != p.key || q.account != p.account
  }

  predicate RequestsApart(s: Auth)
  {
    forall r, q | r in s.requests && q in s.requests && r != q :: Apart(s.requests[r], s.requests[q])
  }

  predicate SoloInv(s: Auth)
  {
    RequestsApart(s) && forall r | r in s.requests :: ClaimOk(s, s.requests[r])
  }

  /** A request arrives only when no other of its key and account is under way. */
  predicate Solo(s: Auth, op: Op)
  {
    op.Arrive? ==> forall r | r in s.requests :: s.requests[r].key != op.key || s.requests[r].account != op.account
  }

  lemma RequestsStayApart(s: Auth, op: Op)
    requires RequestsApart(s) && Enabled(s, op) && Solo(s, op)
    ensures RequestsApart(Step(s, op))
  {
    hide Step, Enabled;
    var after := Step(s, op);
    forall r, q | r in after.requests && q in after.requests && r != q ensures Apart(after.requests[r], after.requests[q]) {
      WhoseRequest(s, op, r);
      WhoseRequest(s, op, q);
    }
  }

  /** A request keeps its key and account; a new one has those it arrived with. */
  lemma WhoseRequest(s: Auth, op: Op, r: Id)
    requires Enabled(s, op) && r in Step(s, op).requests
    ensures var q := Step(s, op).requests[r];
            if op.Arrive? && op.r == r then q.key == op.key && q.account == op.account
            else r in s.requests && q.key == s.requests[r].key && q.account == s.requests[r].account
  {
  }

  /** Only a request with a claim on the slot's code, under its key, writes to it. */
  lemma OtherEntriesStay(s: Auth, op: Op, slot: Slot)
    requires Enabled(s, op)
    requires op.WriteIndex? ==> Slot(s.requests[op.r].stage.claim.otp, s.requests[op.r].key) != slot
    ensures slot in Step(s, op).index ==> slot in s.index && Step(s, op).index[slot] == s.index[slot]
  {
  }

  lemma AccountsStay(s: Auth, op: Op, o: Id)
    requires Enabled(s, op) && o in s.rows
    ensures o in Step(s, op).rows && Step(s, op).rows[o].account == s.rows[o].account
  {
  }

  lemma OtherClaimStaysOk(s: Auth, op: Op, r: Id)
    requires SoloInv(s) && Enabled(s, op) && !Moves(op, r) && r in s.requests && r in Step(s, op).requests
    ensures ClaimOk(Step(s, op), s.requests[r])
  {
    var q, after := s.requests[r], Step(s, op);
    assert ClaimOk(s, q);
    if q.stage.Claimed? || q.stage.Tokened? || q.stage.Indexed? {
      var o := q.stage.claim.otp;
      AccountsStay(s, op, o);
      if op.Consume? || op.WriteIndex? { assert ClaimOk(s, s.requests[op.r]) && Apart(s.requests[op.r], q); }
      if TakenBy(after, o, q.key) { TakenByConsume(s, op, o, q.key); }
      hide TakenBy, Step, Enabled;
      if q.stage.Indexed? { OtherEntriesStay(s, op, Slot(o, q.key)); }
    }
  }

  lemma MoverClaimOk(s: Auth, op: Op, r: Id)
    requires Enabled(s, op) && Moves(op, r) && (r in s.requests ==> ClaimOk(s, s.requests[r]))
    ensures r in Step(s, op).requests && ClaimOk(Step(s, op), Step(s, op).requests[r])
  {
  }

  lemma StepKeepsSolo(s: Auth, op: Op)
    requires SoloInv(s) && Enabled(s, op) && Solo(s, op)
    ensures SoloInv(Step(s, op))
  {
    hide ClaimOk, Step, Enabled, RequestsApart;
    RequestsStayApart(s, op);
    forall r | r in Step(s, op).requests ensures ClaimOk(Step(s, op), Step(s, op).requests[r]) {
      if Moves(op, r) {
        MoverClaimOk(s, op, r);
      } else {
        OthersStandStill(s, op, r);
        OtherClaimStaysOk(s, op, r);
      }
    }
  }

  lemma SoloIsClean(s: Auth, op: Op)
    requires SoloInv(s) && Enabled(s, op)
    ensures Clean(s, op)
  {
    if op.Consume? || op.WriteIndex? { assert ClaimOk(s, s.requests[op.r]); }
  }

  ghost predicate SoloRuns(s: Auth, ops: seq<Op>)
    requires Runs(s, ops)
    decreases |ops|
  {
    ops == [] || (Solo(s, ops[0]) && SoloRuns(Step(s, ops[0]), ops[1..]))
  }

  /** One sufficient case: requests of one key for one account come one after the other. */
  lemma {:induction false} SoloRunsAreClean(s: Auth, ops: seq<Op>)
    requires SoloInv(s) && Runs(s, ops) && SoloRuns(s, ops)
    ensures AllClean(s, ops)
    decreases |ops|
  {
    hide SoloInv, Solo, Clean, Step, Enabled;
    if ops != [] {
      SoloIsClean(s, ops[0]);
      StepKeepsSolo(s, ops[0]);
      SoloRunsAreClean(Step(s, ops[0]), ops[1..]);
    }
  }

  lemma OneTokenWithoutOverlap(now: int, ops: seq<Op>, a: Receipt, b: Receipt)
    requires Runs(Empty(now), ops) && SoloRuns(Empty(now), ops)
    requires a in After(Empty(now), ops).receipts && b in After(Empty(now), ops).receipts && a.otp == b.otp
    ensures a == b
  {
    SoloRunsAreClean(Empty(now), ops);
    OneTokenPerCode(now, ops, a, b);
  }

  // ---- two overlapping requests of one key

  ghost predicate Reached(ops: seq<Op>, s: Auth)
  {
    Runs(Empty(0), ops) && After(Empty(0), ops) == s
  }

  lemma {:induction false} RunsOneMore(s: Auth, ops: seq<Op>, op: Op)
    requires Runs(s, ops) && Enabled(After(s, ops), op)
    ensures Runs(s, ops + [op]) && After(s, ops + [op]) == Step(After(s, ops), op)
    decreases |ops|
  {
    hide Step, Enabled;
    if ops == [] {
      assert ([] + [op])[0] == op && ([] + [op])[1..] == [];
    } else {
      assert (ops + [op])[0] == ops[0] && (ops + [op])[1..] == ops[1..] + [op];
      RunsOneMore(Step(s, ops[0]), ops[1..], op);
    }
  }

  lemma ReachOneMore(ops: seq<Op>, s: Auth, op: Op, after: Auth)
    requires Reached(ops, s) && Enabled(s, op) && Step(s, op) == after
    ensures Reached(ops + [op], after)
  {
    hide Step, Enabled;
    RunsOneMore(Empty(0), ops, op);
  }

  const CODE := Row(0, 7, 0, 10, 0, None, None)

  /** Requests 1 and 2 of key 5 present code 0 side by side; both have come as far as `first` and `second`. */
  function TwoRequests(index: map<Slot, Id>, makers: map<Id, Slot>, first: Stage, second: Stage): Auth
  {
    Auth(0, map[0 := CODE], index, makers, map[1 := Request(0, 7, 5, first), 2 := Request(0, 7, 5, second)], {})
  }

  lemma BothCheck() returns (ops: seq<Op>)
    ensures Reached(ops, TwoRequests(map[], map[], Claimed(Claim(0, 0)), Claimed(Claim(0, 0))))
  {
    var s0 := Empty(0);
    var s1 := s0.(rows := map[0 := CODE]);
    var s2 := s1.(requests := map[1 := Request(0, 7, 5, Fresh)]);
    var c := Claimed(Claim(0, 0));
    assert Reached([], s0);
    ReachOneMore([], s0, Issue(0, CODE), s1);
    ops := [] + [Issue(0, CODE)];
    ReachOneMore(ops, s1, Arrive(1, 0, 7, 5), s2);
    ops := ops + [Arrive(1, 0, 7, 5)];
    ReachOneMore(ops, s2, Arrive(2, 0, 7, 5), TwoRequests(map[], map[], Fresh, Fresh));
    ops := ops + [Arrive(2, 0, 7, 5)];
    hide Reached;
    ReachOneMore(ops, TwoRequests(map[], map[], Fresh, Fresh), Check(1, Some(0)), TwoRequests(map[], map[], c, Fresh));
    ops := ops + [Check(1, Some(0))];
    ReachOneMore(ops, TwoRequests(map[], map[], c, Fresh), Check(2, Some(0)), TwoRequests(map[], map[], c, c));
    ops := ops + [Check(2, Some(0))];
  }

  lemma BothWrite() returns (ops: seq<Op>)
    ensures Reached(ops, TwoRequests(map[Slot(0, 5) := 200], map[100 := Slot(0, 5), 200 := Slot(0, 5)],
                                     Indexed(Claim(0, 0), 100), Indexed(Claim(0, 0), 200)))
  {
    hide Reached;
    var k, slot := Claim(0, 0), Slot(0, 5);
    var one, two := map[100 := slot], map[100 := slot, 200 := slot];
    ops := BothCheck();
    ReachOneMore(ops, TwoRequests(map[], map[], Claimed(k), Claimed(k)), CreateToken(1, 100),
                 TwoRequests(map[], one, Tokened(k, 100), Claimed(k)));
    ops := ops + [CreateToken(1, 100)];
    ReachOneMore(ops, TwoRequests(map[], one, Tokened(k, 100), Claimed(k)), CreateToken(2, 200),
                 TwoRequests(map[], two, Tokened(k, 100), Tokened(k, 200)));
    ops := ops + [CreateToken(2, 200)];
    ReachOneMore(ops, TwoRequests(map[], two, Tokened(k, 100), Tokened(k, 200)), WriteIndex(1),
                 TwoRequests(map[slot := 100], two, Indexed(k, 100), Tokened(k, 200)));
    ops := ops + [WriteIndex(1)];
    ReachOneMore(ops, TwoRequests(map[slot := 100], two, Indexed(k, 100), Tokened(k, 200)), WriteIndex(2),
                 TwoRequests(map[slot := 200], two, Indexed(k, 100), Indexed(k, 200)));
    ops := ops + [WriteIndex(2)];
  }

  /** Request 1 has won with its own token; the retry, request 3, has come as far as `stage`. */
  function AfterWin(stage: Option<Stage>, receipts: set<Receipt>): Auth
  {
    var slot, two := Slot(0, 5), map[100 := Slot(0, 5), 200 := Slot(0, 5)];
    var rest := map[2 := Request(0, 7, 5, Indexed(Claim(0, 0), 200))];
    Auth(0, map[0 := CODE.(consumedAt := Some(0), consumedByKey := Some(5))], map[slot := 200], two,
         if stage.Some? then rest[3 := Request(0, 7, 5, stage.value)] else rest, receipts)
  }

  lemma FirstWins() returns (ops: seq<Op>)
    ensures Reached(ops, AfterWin(None, {Receipt(0, 5, 100)}))
  {
    hide Reached;
    var k, two := Claim(0, 0), map[100 := Slot(0, 5), 200 := Slot(0, 5)];
    ops := BothWrite();
    var won := AfterWin(None, {}).(requests := map[1 := Request(0, 7, 5, Won(0, 100)),
                                                   2 := Request(0, 7, 5, Indexed(k, 200))]);
    ReachOneMore(ops, TwoRequests(map[Slot(0, 5) := 200], two, Indexed(k, 100), Indexed(k, 200)), Consume(1), won);
    ops := ops + [Consume(1)];
    assert won.requests - {1} == map[2 := Request(0, 7, 5, Indexed(k, 200))];
    ReachOneMore(ops, won, Respond(1), AfterWin(None, {Receipt(0, 5, 100)}));
    ops := ops + [Respond(1)];
  }

  /**
   * Where requests of one key do overlap, one code can yield two tokens: the later entry overwrites the
   * earlier request's, and a retry recovers it although the first response carried the other.
   */
  lemma OverlapYieldsTwoTokens() returns (ops: seq<Op>)
    ensures Runs(Empty(0), ops)
    ensures After(Empty(0), ops).receipts == {Receipt(0, 5, 100), Receipt(0, 5, 200)}
  {
    hide Reached;
    var one := {Receipt(0, 5, 100)};
    ops := FirstWins();
    ReachOneMore(ops, AfterWin(None, one), Arrive(3, 0, 7, 5), AfterWin(Some(Fresh), one));
    ops := ops + [Arrive(3, 0, 7, 5)];
    ReachOneMore(ops, AfterWin(Some(Fresh), one), Check(3, None), AfterWin(Some(Invalid), one));
    ops := ops + [Check(3, None)];
    ReachOneMore(ops, AfterWin(Some(Invalid), one), FindConsumed(3, Some(0)), AfterWin(Some(Found(0)), one));
    ops := ops + [FindConsumed(3, Some(0))];
    ReachOneMore(ops, AfterWin(Some(Found(0)), one), Recover(3), AfterWin(Some(Recovered(0, 200)), one));
    ops := ops + [Recover(3)];
    var last := AfterWin(Some(Recovered(0, 200)), one);
    assert last.requests - {3} == AfterWin(None, one).requests;
    ReachOneMore(ops, last, Respond(3), AfterWin(None, {Receipt(0, 5, 100), Receipt(0, 5, 200)}));
    ops := ops + [Respond(3)];
    ReachedMeans(ops, AfterWin(None, {Receipt(0, 5, 100), Receipt(0, 5, 200)}));
  }

  lemma ReachedMeans(ops: seq<Op>, s: Auth)
    requires Reached(ops, s)
    ensures Runs(Empty(0), ops) && After(Empty(0), ops) == s
  {
  }

  // ---- the services' statements, and the handler run without interruption

  datatype VerifyError = InvalidCode | CodeRefused

  /** The key has consumed this code, and its entries are still there. */
  predicate Recoverable(rows: map<Id, Row>, index: map<Slot, Id>, account: Id, code: nat, key: Id)
  {
    && (exists o | o in rows :: ConsumedBy(rows, account, code, key, o))
    && forall o | o in rows && ConsumedBy(rows, account, code, key, o) :: Slot(o, key) in index
  }

  /** Entries and rows after an uninterrupted request that found `o` open. */
  function Verified(index: map<Slot, Id>, rows: map<Id, Row>, o: Id, code: nat, key: Id, token: Id, now: int)
    : (map<Slot, Id>, map<Id, Row>)
    requires o in rows
  {
    match Checked(rows[o], o, code, now)
    case Claimed(_) =>
      (index[Slot(o, key) := token],
       if rows[o].expiresAt > now then rows[o := rows[o].(consumedAt := Some(now), consumedByKey := Some(key))] else rows)
    case Wrong(_) => (index, rows[o := rows[o].(attempts := rows[o].attempts + 1)])
    case _ => (index, rows)
  }

  class Server {
    var now: int
    var rows: map<Id, Row>
    var index: map<Slot, Id>
    ghost var makers: map<Id, Slot>

    constructor (now: int)
      ensures this.now == now && rows == map[] && index == map[] && makers == map[]
    {
      this.now := now;
      rows, index, makers := map[], map[], map[];
    }

    /** The most recent unconsumed code of an account. */
    method FindLatest(account: Id) returns (latest: Option<Id>)
      ensures match latest
              case Some(o) => IsLatest(rows, account, o)
              case None => NoneOpen(rows, account)
    {
      latest := None;
      var rest := rows.Keys;
      while rest != {}
        invariant rest <= rows.Keys
        invariant latest.Some? ==> latest.value in rows && latest.value !in rest && rows[latest.value].account == account
                                   && rows[latest.value].consumedAt.None?
        invariant forall p | p in rows && p !in rest && rows[p].account == account && rows[p].consumedAt.None? ::
                    latest.Some? && rows[p].issued <= rows[latest.value].issued
        decreases rest
      {
        var p :| p in rest;
        rest := rest - {p};
        if rows[p].account == account && rows[p].consumedAt.None?
           && (latest.None? || rows[latest.value].issued < rows[p].issued) {
          latest := Some(p);
        }
      }
    }

    /** Check a code and count a wrong guess; it consumes nothing. */
    method CheckCode(account: Id, code: nat) returns (outcome: Stage, ghost latest: Option<Id>)
      modifies this`rows
      ensures match latest
              case Some(o) => IsLatest(old(rows), account, o)
              case None => NoneOpen(old(rows), account)
      ensures match latest
              case None => outcome == Invalid && rows == old(rows)
              case Some(o) =>
                var stage := Checked(old(rows)[o], o, code, now);
                if stage.Wrong?
                then outcome == Invalid && rows == old(rows)[o := old(rows)[o].(attempts := old(rows)[o].attempts + 1)]
                else outcome == stage && rows == old(rows)
      ensures match latest
              case None => true
              case Some(o) =>
                var row := old(rows)[o];
                if row.attempts >= 5 || row.expiresAt < now then outcome == Refused && rows == old(rows)
                else if row.code == code then outcome == Claimed(Claim(o, row.attempts)) && rows == old(rows)
                else outcome == Invalid && rows == old(rows)[o := row.(attempts := row.attempts + 1)]
    {
      var found := FindLatest(account);
      latest := found;
      if found.None? {
        return Invalid, latest;
      }
      var o := found.value;
      var row := rows[o];
      if row.attempts >= MAX_ATTEMPTS || row.expiresAt < now {
        return Refused, latest;
      }
      if row.code != code {
        rows := rows[o := row.(attempts := row.attempts + 1)];
        return Invalid, latest;
      }
      outcome := Claimed(Claim(o, row.attempts));
    }

    /** The compare-and-swap. */
    method ConsumeClaim(c: Claim, key: Id) returns (won: bool)
      modifies this`rows
      ensures won <==> CanConsume(old(rows), now, c)
      ensures rows == if won then old(rows)[c.otp := old(rows)[c.otp].(consumedAt := Some(now), consumedByKey := Some(key))]
                      else old(rows)
    {
      won := c.otp in rows && rows[c.otp].consumedAt.None? && rows[c.otp].expiresAt > now && rows[c.otp].attempts == c.attempts;
      if won { rows := rows[c.otp := rows[c.otp].(consumedAt := Some(now), consumedByKey := Some(key))]; }
    }

    /** The row this key consumed with this code; the latest, should there be several. */
    method FindConsumedRecord(account: Id, code: nat, key: Id) returns (record: Option<Id>)
      ensures record.Some? ==> ConsumedBy(rows, account, code, key, record.value)
      ensures forall o | ConsumedBy(rows, account, code, key, o) ::
                record.Some? && rows[o].consumedAt.value <= rows[record.value].consumedAt.value
    {
      var rest := rows.Keys;
      record := None;
      while rest != {}
        invariant rest <= rows.Keys
        invariant record.Some? ==> ConsumedBy(rows, account, code, key, record.value)
        invariant forall o | o in rows && o !in rest && ConsumedBy(rows, account, code, key, o) ::
                    record.Some? && rows[o].consumedAt.value <= rows[record.value].consumedAt.value
        decreases rest
      {
        var o :| o in rest;
        rest := rest - {o};
        if rows[o].account == account && rows[o].code == code && rows[o].consumedAt.Some? && rows[o].consumedByKey == Some(key)
           && (record.None? || rows[record.value].consumedAt.value < rows[o].consumedAt.value) {
          record := Some(o);
        }
      }
    }

    /**
     * The handler, uninterrupted. A token comes back only for a code this key has consumed, and it was
     * made for that code and key; the right code before its time always yields one, and a repeat
     * of the request yields the same one for as long as its entry lives.
     */
    method VerifyOtp(account: Id, code: nat, key: Id, token: Id)
      returns (r: Result<Id, VerifyError>, ghost latest: Option<Id>)
      requires token !in makers
      requires forall slot | slot in index :: index[slot] in makers && makers[index[slot]] == slot
      modifies this`rows, this`index, this`makers
      ensures forall slot | slot in index :: index[slot] in makers && makers[index[slot]] == slot
      ensures r.Ok? ==> exists o :: ConsumedBy(rows, account, code, key, o) && Slot(o, key) in index
                                    && index[Slot(o, key)] == r.value && makers[r.value] == Slot(o, key)
      ensures match latest
              case Some(o) => IsLatest(old(rows), account, o)
              case None => NoneOpen(old(rows), account)
      ensures latest.Some? ==> (index, rows) == Verified(old(index), old(rows), latest.value, code, key, token, now)
      ensures latest.Some? && Checked(old(rows)[latest.value], latest.value, code, now).Refused? ==> r == Err(CodeRefused)
      ensures latest.Some? && (old(rows)[latest.value].attempts >= 5 || old(rows)[latest.value].expiresAt < now) ==>
                r == Err(CodeRefused) && rows == old(rows) && index == old(index)
      ensures var o := latest;
              o.Some? && old(rows)[o.value].attempts < 5 && old(rows)[o.value].expiresAt > now && old(rows)[o.value].code == code ==>
                && r == Ok(token)
                && rows == old(rows)[o.value := old(rows)[o.value].(consumedAt := Some(now), consumedByKey := Some(key))]
                && index == old(index)[Slot(o.value, key) := token]
      ensures var o := latest;
              o.Some? && old(rows)[o.value].attempts < 5 && old(rows)[o.value].expiresAt >= now && old(rows)[o.value].code != code ==>
                rows == old(rows)[o.value := old(rows)[o.value].(attempts := old(rows)[o.value].attempts + 1)] && index == old(index)
      ensures RightCode(old(rows), account, code, now) ==> r == Ok(token)
      ensures NoneOpen(old(rows), account) ==> rows == old(rows) && index == old(index)
      ensures NoneOpen(old(rows), account) && r.Ok? ==>
                exists o :: ConsumedBy(old(rows), account, code, key, o) && Slot(o, key) in old(index)
                            && old(index)[Slot(o, key)] == r.value
      ensures NoneOpen(old(rows), account) && Recoverable(old(rows), old(index), account, code, key) ==> r.Ok?
    {
      var outcome, read := CheckCode(account, code);
      latest := read;
      if outcome.Claimed? {
        var c := outcome.claim;
        makers := makers[token := Slot(c.otp, key)];
        index := index[Slot(c.otp, key) := token];
        var won := ConsumeClaim(c, key);
        if !won {
          return Err(InvalidCode), latest;
        }
        assert ConsumedBy(rows, account, code, key, c.otp);
        return Ok(token), latest;
      }
      if outcome.Invalid? {
        var record := FindConsumedRecord(account, code, key);
        if record.Some? && Slot(record.value, key) in index {
          return Ok(index[Slot(record.value, key)]), latest;
        }
        return Err(InvalidCode), latest;
      }
      r := Err(CodeRefused);
    }
  }
}
