/**
 * The limits on a one-time code: five wrong guesses and it is dead, it opens only for the account and
 * the digits it was issued for, and only in time. However requests interleave.
 */
module OtpLimits {
  import opened Common
  import opened Otp

  // ---- the check

  /** The check reads an unconsumed code of the request's own account, and none of the account's is newer. */
  lemma CheckReadsTheLatest(s: Auth, r: Id, o: Id, p: Id)
    requires Enabled(s, Check(r, Some(o)))
    ensures r in s.requests && o in s.rows && s.rows[o].account == s.requests[r].account && s.rows[o].consumedAt == None
    ensures p in s.rows && s.rows[p].account == s.requests[r].account && s.rows[p].consumedAt == None ==>
              s.rows[p].issued <= s.rows[o].issued
  {
  }

  /** Five counted guesses or the end of its time refuse a code unread; then the digits decide. Nothing else changes. */
  lemma WhatTheCheckDecides(s: Auth, r: Id, o: Id)
    requires Enabled(s, Check(r, Some(o)))
    ensures var row := s.rows[o];
            var q := s.requests[r];
            var stage :=
              if row.attempts >= 5 || row.expiresAt < s.now then Refused
              else if row.code == q.code then Claimed(Claim(o, row.attempts))
              else Wrong(o);
            Step(s, Check(r, Some(o))) == s.(requests := s.requests[r := q.(stage := stage)])
  {
  }

  /** A wrong guess is counted once, against the code it was made on. */
  lemma WrongGuessIsCounted(s: Auth, r: Id, o: Id)
    requires r in s.requests && s.requests[r].stage == Wrong(o) && o in s.rows
    ensures Enabled(s, CountGuess(r))
    ensures Step(s, CountGuess(r)) ==
            s.(rows := s.rows[o := s.rows[o].(attempts := s.rows[o].attempts + 1)],
               requests := s.requests[r := s.requests[r].(stage := Invalid)])
  {
  }

  // ---- what a request may hold

  /** The code fits what the request presented. */
  predicate Fits(s: Auth, q: Request, o: Id)
  {
    o in s.rows && s.rows[o].account == q.account && s.rows[o].code == q.code
  }

  predicate HoldsRightly(s: Auth, q: Request)
  {
    match q.stage
    case Wrong(o) => o in s.rows && s.rows[o].account == q.account && s.rows[o].code != q.code
    case Claimed(c) => c.attempts < 5 && Fits(s, q, c.otp) && c.attempts <= s.rows[c.otp].attempts
    case Tokened(c, _) => c.attempts < 5 && Fits(s, q, c.otp) && c.attempts <= s.rows[c.otp].attempts
    case Indexed(c, _) => c.attempts < 5 && Fits(s, q, c.otp) && c.attempts <= s.rows[c.otp].attempts
    case Won(o, _) => Fits(s, q, o)
    case Found(o) => Fits(s, q, o)
    case Recovered(o, _) => Fits(s, q, o)
    case _ => true
  }

  predicate LimitsInv(s: Auth)
  {
    && (forall r | r in s.requests :: HoldsRightly(s, s.requests[r]))
    && (forall o | o in s.rows && s.rows[o].consumedAt.None? :: s.rows[o].consumedByKey == None)
  }

  /** Rows stay, with their account, digits and end; guesses are only ever added. */
  predicate RowsGrow(s: Auth, after: Auth)
  {
    forall o | o in s.rows ::
      && o in after.rows && after.rows[o].account == s.rows[o].account && after.rows[o].code == s.rows[o].code
      && after.rows[o].expiresAt == s.rows[o].expiresAt && s.rows[o].attempts <= after.rows[o].attempts
  }

  lemma StepGrowsRows(s: Auth, op: Op)
    requires Enabled(s, op)
    ensures RowsGrow(s, Step(s, op))
  {
  }

  lemma GrownRowsKeepRequest(s: Auth, after: Auth, q: Request)
    requires RowsGrow(s, after) && HoldsRightly(s, q)
    ensures HoldsRightly(after, q)
  {
  }

  lemma MoverHoldsRightly(s: Auth, op: Op, r: Id)
    requires LimitsInv(s) && Enabled(s, op) && Moves(op, r)
    ensures r in Step(s, op).requests && HoldsRightly(Step(s, op), Step(s, op).requests[r])
  {
    if r in s.requests { assert HoldsRightly(s, s.requests[r]); }
  }

  lemma StepKeepsLimits(s: Auth, op: Op)
    requires LimitsInv(s) && Enabled(s, op)
    ensures LimitsInv(Step(s, op))
  {
    var after := Step(s, op);
    StepKeepsKeys(s, op);
    hide Step, Enabled, HoldsRightly;
    forall r | r in after.requests ensures HoldsRightly(after, after.requests[r]) {
      if Moves(op, r) {
        MoverHoldsRightly(s, op, r);
      } else {
        OthersStandStill(s, op, r);
        StepGrowsRows(s, op);
        GrownRowsKeepRequest(s, after, s.requests[r]);
      }
    }
  }

  lemma StepKeepsKeys(s: Auth, op: Op)
    requires LimitsInv(s) && Enabled(s, op)
    ensures forall o | o in Step(s, op).rows && Step(s, op).rows[o].consumedAt.None? :: Step(s, op).rows[o].consumedByKey == None
  {
  }

  lemma {:induction false} RunKeepsLimits(s: Auth, ops: seq<Op>)
    requires LimitsInv(s) && Runs(s, ops)
    ensures LimitsInv(After(s, ops)) && RowsGrow(s, After(s, ops))
    decreases |ops|
  {
    hide LimitsInv, Step, Enabled;
    if ops != [] {
      StepKeepsLimits(s, ops[0]);
      StepGrowsRows(s, ops[0]);
      RunKeepsLimits(Step(s, ops[0]), ops[1..]);
    }
  }

  /**
   * In every reachable state a request that holds a claim saw fewer than five guesses on its code, and
   * the code is of the request's account and has the digits it presented. The same holds of a code a request
   * has won, has found to be its own, or recovers a token for.
   */
  lemma ClaimsAreRight(now: int, ops: seq<Op>, r: Id)
    requires Runs(Empty(now), ops) && r in After(Empty(now), ops).requests
    ensures var s := After(Empty(now), ops);
            var q := s.requests[r];
            && (q.stage.Claimed? || q.stage.Tokened? || q.stage.Indexed? ==>
                  var c := q.stage.claim;
                  c.attempts < 5 && c.otp in s.rows && s.rows[c.otp].account == q.account && s.rows[c.otp].code == q.code)
            && (q.stage.Won? ==>
                  var o := q.stage.won; o in s.rows && s.rows[o].account == q.account && s.rows[o].code == q.code)
            && (q.stage.Found? ==>
                  var o := q.stage.found; o in s.rows && s.rows[o].account == q.account && s.rows[o].code == q.code)
            && (q.stage.Recovered? ==>
                  var o := q.stage.from; o in s.rows && s.rows[o].account == q.account && s.rows[o].code == q.code)
  {
    RunKeepsLimits(Empty(now), ops);
    assert HoldsRightly(After(Empty(now), ops), After(Empty(now), ops).requests[r]);
  }

  /**
   * A consume that matches, in any reachable state, takes an unconsumed code that is still in time, with
   * fewer than five guesses against it, for the account and digits presented, and marks it
   * with the key that took it.
   */
  lemma OnlyALiveCodeIsTaken(now: int, ops: seq<Op>, r: Id)
    requires Runs(Empty(now), ops) && Enabled(After(Empty(now), ops), Consume(r))
    ensures var s := After(Empty(now), ops);
            var q := s.requests[r];
            var o, token := q.stage.claim.otp, q.stage.token;
            var after := Step(s, Consume(r));
            if after.requests[r].stage == Won(o, token) then
              && o in s.rows && s.rows[o].consumedAt == None && s.now < s.rows[o].expiresAt && s.rows[o].attempts < 5
              && s.rows[o].account == q.account && s.rows[o].code == q.code
              && after == s.(rows := s.rows[o := s.rows[o].(consumedAt := Some(s.now), consumedByKey := Some(q.key))],
                             requests := s.requests[r := q.(stage := Won(o, token))])
            else after == s.(requests := s.requests[r := q.(stage := Refused)])
  {
    ClaimsAreRight(now, ops, r);
  }

  lemma {:induction false} ExhaustedStaysUntaken(s: Auth, ops: seq<Op>, o: Id)
    requires LimitsInv(s) && Runs(s, ops)
    requires o in s.rows && s.rows[o].attempts >= 5 && s.rows[o].consumedByKey == None
    ensures o in After(s, ops).rows && After(s, ops).rows[o].consumedByKey == None
    decreases |ops|
  {
    if ops != [] {
      StepLeavesExhausted(s, ops[0], o);
      hide LimitsInv, Step, Enabled;
      StepKeepsLimits(s, ops[0]);
      ExhaustedStaysUntaken(Step(s, ops[0]), ops[1..], o);
    }
  }

  lemma StepLeavesExhausted(s: Auth, op: Op, o: Id)
    requires LimitsInv(s) && Enabled(s, op)
    requires o in s.rows && s.rows[o].attempts >= 5 && s.rows[o].consumedByKey == None
    ensures o in Step(s, op).rows && Step(s, op).rows[o].attempts >= 5 && Step(s, op).rows[o].consumedByKey == None
  {
    if op.Consume? { assert HoldsRightly(s, s.requests[op.r]); }
  }

  /**
   * An unconsumed code with five counted guesses is taken by no key, in any later state, and no token
   * goes out for it.
   */
  lemma ExhaustedIsDead(now: int, ops: seq<Op>, more: seq<Op>, o: Id)
    requires Runs(Empty(now), ops) && Runs(After(Empty(now), ops), more)
    requires var s := After(Empty(now), ops); o in s.rows && s.rows[o].consumedAt == None && s.rows[o].attempts >= 5
    ensures var last := After(After(Empty(now), ops), more);
            && o in last.rows && last.rows[o].consumedByKey == None
            && forall c | c in last.receipts :: c.otp != o
  {
    var s := After(Empty(now), ops);
    RunKeepsLimits(Empty(now), ops);
    ExhaustedStaysUntaken(s, more, o);
    RunKeepsInv(Empty(now), ops);
    RunKeepsInv(s, more);
    var last := After(s, more);
    forall c | c in last.receipts ensures c.otp != o {
      assert TakenBy(last, c.otp, c.key);
    }
  }

  // ---- the other statements

  /** Creating the token, writing its entry, finding and recovering: what each puts down and nothing besides. */
  lemma StatementsDo(s: Auth, r: Id, token: Id, o: Id)
    requires r in s.requests
    ensures var q := s.requests[r];
            && (q.stage.Claimed? && token !in s.makers ==>
                  Enabled(s, CreateToken(r, token))
                  && Step(s, CreateToken(r, token)) ==
                     s.(makers := s.makers[token := Slot(q.stage.claim.otp, q.key)],
                        requests := s.requests[r := q.(stage := Tokened(q.stage.claim, token))]))
            && (q.stage.Tokened? ==>
                  Enabled(s, WriteIndex(r))
                  && Step(s, WriteIndex(r)) ==
                     s.(index := s.index[Slot(q.stage.claim.otp, q.key) := q.stage.token],
                        requests := s.requests[r := q.(stage := Indexed(q.stage.claim, q.stage.token))]))
            && (Enabled(s, FindConsumed(r, Some(o))) <==>
                  && q.stage.Invalid? && o in s.rows && s.rows[o].account == q.account && s.rows[o].code == q.code
                  && s.rows[o].consumedAt != None && s.rows[o].consumedByKey == Some(q.key))
            && (q.stage == Found(o) ==>
                  Enabled(s, Recover(r))
                  && Step(s, Recover(r)) ==
                     s.(requests := s.requests[r := q.(stage :=
                       if Slot(o, q.key) in s.index then Recovered(o, s.index[Slot(o, q.key)]) else Refused)]))
            && (q.stage == Won(o, token) || q.stage == Recovered(o, token) ==>
                  Enabled(s, Respond(r))
                  && Step(s, Respond(r)) ==
                     s.(requests := s.requests - {r}, receipts := s.receipts + {Receipt(o, q.key, token)}))
  {
  }
}
