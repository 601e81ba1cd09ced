/**
 What the verbs of the compute billing bridge answer (model/compute_hold.go): an
 answer describes the state the verb leaves, and a refusal names a reason that is so.
 */
module HoldAnswers {
  import opened Basics
  import opened ComputeHold

  /**
   A fresh extension answers, and keeps for its retries, the hold's quota and the
   wallet's balance in the state it leaves; both moved by what was asked for.
   */
  lemma ExtendTellsTheTruth(b: Books, op: Op)
    requires RowsOk(b) && op.Extend? && Step(b, op).1.Extended? && !Step(b, op).1.replayed
    ensures var (b', reply) := Step(b, op);
            && op.id in b.holds && op.id in b'.holds && b.holds[op.id].userId in b.tenants
            && op.extendId in b'.extensions && b'.extensions[op.extendId] == reply.extension
            && reply.extension.holdId == op.id && reply.extension.additional == op.additional
            && reply.extension.createdAt == op.now
            && var h, h', wallet := b.holds[op.id], b'.holds[op.id], EntityOf(b, b.holds[op.id].userId);
               && wallet in b.wallets && wallet in b'.wallets
               && reply.extension.quotaAfter == h'.quota == h.quota + op.additional
               && reply.extension.remain == b'.wallets[wallet] == b.wallets[wallet] - op.additional
               && h' == h.(quota := h'.quota, updatedAt := op.now)
  {
    assert op.id in b.holds && Refusal(b, op.id, op.now).None?;
  }

  /** A fresh hold answers with the row it leaves: the request, open, unspent and paid for by the login's wallet. */
  lemma CreateTellsTheTruth(b: Books, op: Op)
    requires RowsOk(b) && op.Create? && Step(b, op).1.Created? && !Step(b, op).1.replayed
    ensures var (b', reply) := Step(b, op);
            && op.id !in b.holds && op.id in b'.holds && reply.hold == b'.holds[op.id]
            && var h, r := b'.holds[op.id], op.request;
               && r.userId in b.tenants && h.userId == r.userId && h.tenantId == b.tenants[r.userId]
               && h.tokenId == r.tokenId && h.jobId == r.jobId && h.sku == r.sku && h.expiresAt == r.expiresAt
               && h.requested == h.quota == r.quota && h.settled == h.released == 0 && h.status == Active
               && h.createdAt == h.updatedAt == op.now
               && Known(b'.wallets, EntityOf(b, r.userId)) == Known(b.wallets, EntityOf(b, r.userId)) - r.quota
  {
  }

  /** A release that closes the hold answers with the row it leaves and gives back all that was not settled. */
  lemma ReleaseTellsTheTruth(b: Books, op: Op)
    requires RowsOk(b) && op.Release? && Step(b, op).1.ReleasedHold?
    ensures var (b', reply) := Step(b, op);
            && op.id in b.holds && op.id in b'.holds && reply.hold == b'.holds[op.id]
            && b.holds[op.id].userId in b.tenants
            && var h, wallet := b.holds[op.id], EntityOf(b, b.holds[op.id].userId);
               if h.status == Active then
                 && reply.hold == h.(status := Released, released := h.quota - h.settled, updatedAt := op.now)
                 && Known(b'.wallets, wallet) == Known(b.wallets, wallet) + h.quota - h.settled
               else b' == b
  {
    assert op.id in b.holds;
  }

  /** A queued movement, or part of one, reaches its token; nothing else moves. */
  lemma TokenStepMoves(b: Books, tokenId: int, amount: int)
    ensures var b' := Step(b, TokenStep(tokenId, amount)).0;
            && Known(b'.tokens, tokenId) == Known(b.tokens, tokenId) + amount
            && Known(b'.due, tokenId) == Known(b.due, tokenId) - amount
            && b'.wallets == b.wallets && b'.holds == b.holds
  {
  }

  /** What each refusal says is so, in the state it leaves. */
  predicate Why(b: Books, op: Op, error: Error, b': Books)
    requires Verb(op)
  {
    match error
    case HoldNotFound => op.id !in b.holds
    case HoldExpired => op.id in b'.holds && b'.holds[op.id].status == Expired
    case HoldClosed => op.id in b.holds && (b.holds[op.id].status == Settled || b.holds[op.id].status == Released)
    case HoldExceeded => op.Settle? && op.id in b.holds && op.cumulative > b.holds[op.id].quota
    case SettlementRegressed => op.Settle? && op.id in b.holds && op.cumulative < b.holds[op.id].settled
    case IdempotencyConflict => Conflicts(b, op)
    case TokenQuotaShort =>
      || (op.Create? && op.token.Some? && !op.token.value.unlimited && op.token.value.remain < op.request.quota)
      || (op.Extend? && op.token.Some? && !op.token.value.unlimited && op.token.value.remain < op.additional)
    case QuotaOutOfRange =>
      || (op.Create? && !(0 < op.request.quota <= MAX_QUOTA))
      || (op.Settle? && !(0 <= op.cumulative <= MAX_QUOTA && op.gpuSeconds >= 0))
      || (op.Extend? && !(0 < op.additional <= MAX_QUOTA))
      || (op.Extend? && op.id in b.holds && b.holds[op.id].quota + op.additional > MAX_QUOTA)
    case InsufficientBalance =>
      || (op.Create? && op.request.userId in b.tenants &&
          Known(b.wallets, EntityOf(b, op.request.userId)) < op.request.quota)
      || (op.Extend? && op.id in b.holds && b.holds[op.id].userId in b.tenants &&
          Known(b.wallets, EntityOf(b, b.holds[op.id].userId)) < op.additional)
    case InvalidToken =>
      (op.Create? || op.Extend?) &&
      (op.token.None? ||
       (op.Create? && (op.token.value.id != op.request.tokenId || op.token.value.userId != op.request.userId)))
    case NoSuchUser => op.Create? && op.request.userId !in b.tenants
  }

  /** The id is taken by something else: another request, settlement or extension, or another token's hold. */
  predicate Conflicts(b: Books, op: Op)
    requires Verb(op)
  {
    match op
    case Create(id, r, _, _, _) =>
      id in b.holds && !(var h := b.holds[id];
                         HoldRequest(h.userId, h.tokenId, h.jobId, h.sku, h.requested, h.expiresAt) == r)
    case Settle(id, eventId, cumulative, gpuSeconds, final, _, _) =>
      eventId in b.settlements && !(var x := b.settlements[eventId];
                                    && x.holdId == id && x.cumulative == cumulative
                                    && x.gpuSeconds == gpuSeconds && x.final == final)
    case Extend(id, extendId, additional, token, _, _) =>
      || (extendId in b.extensions &&
          !(b.extensions[extendId].holdId == id && b.extensions[extendId].additional == additional))
      || (id in b.holds && token.Some? && token.value.id != b.holds[id].tokenId)
    case _ => false
  }

  /** Every refusal gives a reason that is so. */
  lemma RefusalsSayWhy(b: Books, op: Op)
    requires RowsOk(b) && Verb(op)
    ensures Step(b, op).1.Failed? ==> Why(b, op, Step(b, op).1.error, Step(b, op).0)
  {
    match op
    case Create(_, _, _, _, _) =>
    case Settle(_, _, _, _, _, _, _) => SettleSaysWhy(b, op);
    case Extend(_, _, _, _, _, _) => ExtendSaysWhy(b, op);
    case Release(id, now) => if id in b.holds { ExpiresOnTheSpot(b, id, now); }
    case Expire(_, _) =>
  }

  lemma ExpiresOnTheSpot(b: Books, id: string, now: int)
    requires RowsOk(b) && id in b.holds
    ensures var r := Refusal(b, id, now);
            r.Some? ==> var (b', reply) := Commit(b, r.value);
                        && id in b'.holds && reply.Failed? && (reply.error == HoldExpired || reply.error == HoldClosed)
                        && (reply.error == HoldExpired ==> b'.holds[id].status == Expired)
                        && (reply.error == HoldClosed ==> b.holds[id].status in {Settled, Released})
  {
  }

  lemma SettleSaysWhy(b: Books, op: Op)
    requires RowsOk(b) && op.Settle?
    ensures Step(b, op).1.Failed? ==> Why(b, op, Step(b, op).1.error, Step(b, op).0)
  {
    if op.id in b.holds { ExpiresOnTheSpot(b, op.id, op.now); }
  }

  lemma ExtendSaysWhy(b: Books, op: Op)
    requires RowsOk(b) && op.Extend?
    ensures Step(b, op).1.Failed? ==> Why(b, op, Step(b, op).1.error, Step(b, op).0)
  {
    if op.id in b.holds { ExpiresOnTheSpot(b, op.id, op.now); }
  }
}
