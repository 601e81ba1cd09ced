/**
 The compute billing bridge's books (model/compute_hold.go).

 Each verb's database transaction is one atomic function on the books: a
 transaction that fails rolls back, so it returns the books it was given. A verb
 first looks whether its request is a replay, outside the transaction: a `late`
 request is one whose lookup found nothing at some earlier time, and which meets
 a row written since then only inside its transaction. Token movements happen
 after the commit and are queued in `due` until a `TokenStep` makes them.
 */
module ComputeHold {
  import opened Basics
  import opened Sums

  const MAX_QUOTA := 0x7FFF_FFFF

  datatype Status = Active | Settled | Released | Expired

  datatype Hold = Hold(userId: int, tenantId: int, tokenId: int, jobId: string, sku: string,
                       quota: int, requested: int, settled: int, released: int,
                       status: Status, expiresAt: int, createdAt: int, updatedAt: int)

  datatype Settlement = Settlement(holdId: string, cumulative: int, delta: int, gpuSeconds: int, final: bool,
                                   createdAt: int)

  datatype Extension = Extension(holdId: string, additional: int, quotaAfter: int, remain: int, createdAt: int)

  /** The wallet a login spends from: its tenant's, or its own when untenanted. */
  datatype Entity = UserWallet(id: int) | TenantWallet(id: int)

  datatype Token = Token(id: int, userId: int, unlimited: bool, remain: int)

  datatype Books = Books(
    tenants: map<int, int>,              // user -> tenant, 0 for none
    wallets: map<Entity, int>,
    tokens: map<int, int>,               // token -> remaining quota
    due: map<int, int>,                  // token movements committed but not yet made
    holds: map<string, Hold>,
    settlements: map<string, Settlement>,
    extensions: map<string, Extension>)

  datatype Error =
    | HoldNotFound | HoldExpired | HoldClosed | HoldExceeded | IdempotencyConflict | SettlementRegressed
    | TokenQuotaShort | QuotaOutOfRange | InsufficientBalance | InvalidToken | NoSuchUser

  datatype Reply =
    | Failed(error: Error)
    | Created(hold: Hold, replayed: bool)
    | SettledTo(hold: Hold, delta: int, released: int, replayed: bool)
    | Extended(extension: Extension, replayed: bool)
    | ReleasedHold(hold: Hold)
    | Swept(closed: bool)
    | Done

  datatype HoldRequest = HoldRequest(userId: int, tokenId: int, jobId: string, sku: string, quota: int, expiresAt: int)

  datatype Op =
    | Create(id: string, request: HoldRequest, token: Option<Token>, late: bool, now: int)
    | Settle(id: string, eventId: string, cumulative: int, gpuSeconds: int, final: bool, late: bool, now: int)
    | Extend(id: string, extendId: string, additional: int, token: Option<Token>, late: bool, now: int)
    | Release(id: string, now: int)
    | Expire(id: string, now: int)
    | TokenStep(tokenId: int, amount: int)      // a queued token movement, or part of one, is made
    | External(entity: Entity, amount: int)     // top-ups and relay spending on the same wallets
    | Assign(userId: int, tenantId: int)        // a login joins or leaves a tenant

  // ----- Wallets -----

  function EntityFor(userId: int, tenantId: int): Entity
  {
    if tenantId > 0 then TenantWallet(tenantId) else UserWallet(userId)
  }

  function EntityOf(b: Books, userId: int): Entity
    requires userId in b.tenants
  {
    EntityFor(userId, b.tenants[userId])
  }

  /** `UPDATE ... SET quota = quota + delta WHERE id = ...`: a missing row is no error. */
  function Moved(wallets: map<Entity, int>, e: Entity, delta: int): map<Entity, int>
  {
    if e in wallets then wallets[e := wallets[e] + delta] else wallets
  }

  function Owe(due: map<int, int>, tokenId: int, delta: int): map<int, int>
  {
    due[tokenId := (if tokenId in due then due[tokenId] else 0) + delta]
  }

  // ----- The transactions -----

  datatype Row =
    | NoRow
    | SettlementRow(eventId: string, settlement: Settlement)
    | ExtensionRow(extendId: string, extension: Extension)

  /**
   What a verb decides to do: only answer, or write its hold row (with the
   idempotency row of the request, if it has one) while `amount` goes to the
   wallet its user spends from at that moment and is queued for its token.
   */
  datatype Decision =
    | Answer(reply: Reply)
    | Write(id: string, hold: Hold, amount: int, row: Row, reply: Reply)

  function Commit(b: Books, d: Decision): (Books, Reply)
  {
    if d.Answer? then (b, d.reply)
    else if d.amount != 0 && d.hold.userId !in b.tenants then (b, Failed(NoSuchUser))
    else
      (b.(wallets := if d.amount == 0 then b.wallets else Moved(b.wallets, EntityOf(b, d.hold.userId), d.amount),
          due := Owe(b.due, d.hold.tokenId, d.amount),
          holds := b.holds[d.id := d.hold],
          settlements :=
            if d.row.SettlementRow? then b.settlements[d.row.eventId := d.row.settlement] else b.settlements,
          extensions := if d.row.ExtensionRow? then b.extensions[d.row.extendId := d.row.extension] else b.extensions),
       d.reply)
  }

  function Replayed(hold: Hold, r: HoldRequest): Reply
  {
    if hold.userId != r.userId || hold.tokenId != r.tokenId || hold.jobId != r.jobId || hold.sku != r.sku ||
       hold.requested != r.quota || hold.expiresAt != r.expiresAt
    then Failed(IdempotencyConflict)
    else Created(hold, true)
  }

  /** `TryDecreaseUserQuota`: the wallet is only charged what it can pay. */
  predicate CanPay(b: Books, userId: int, quota: int)
    requires userId in b.tenants
  {
    var e := EntityOf(b, userId);
    e in b.wallets && b.wallets[e] >= quota
  }

  function CreateTx(b: Books, id: string, r: HoldRequest, token: Option<Token>, late: bool, now: int): Decision
  {
    if r.quota <= 0 || r.quota > MAX_QUOTA then Answer(Failed(QuotaOutOfRange))
    else if !late && id in b.holds then Answer(Replayed(b.holds[id], r))
    else if token.None? || token.value.id != r.tokenId || token.value.userId != r.userId
    then Answer(Failed(InvalidToken))
    else if !token.value.unlimited && token.value.remain < r.quota then Answer(Failed(TokenQuotaShort))
    else if r.userId !in b.tenants then Answer(Failed(NoSuchUser))
    else if id in b.holds then Answer(Replayed(b.holds[id], r))
    else if !CanPay(b, r.userId, r.quota) then Answer(Failed(InsufficientBalance))
    else
      var hold := Hold(r.userId, b.tenants[r.userId], r.tokenId, r.jobId, r.sku, r.quota, r.quota, 0, 0,
                       Active, r.expiresAt, now, now);
      Write(id, hold, -r.quota, NoRow, Created(hold, false))
  }

  function ExpireTx(b: Books, id: string, now: int): Decision
  {
    if id !in b.holds then Answer(Failed(HoldNotFound))
    else
      var hold := b.holds[id];
      if hold.status != Active || hold.expiresAt > now then Answer(Swept(false))
      else
        var remainder := hold.quota - hold.settled;
        Write(id, hold.(status := Expired, released := remainder, updatedAt := now), remainder, NoRow, Swept(true))
  }

  /** What stands in the way of using a hold at `now`; a lapsed hold is expired on the spot. */
  function Refusal(b: Books, id: string, now: int): Option<Decision>
    requires id in b.holds
  {
    var hold := b.holds[id];
    if hold.status == Expired then Some(Answer(Failed(HoldExpired)))
    else if hold.status != Active then Some(Answer(Failed(HoldClosed)))
    else if hold.expiresAt <= now then Some(ExpireTx(b, id, now).(reply := Failed(HoldExpired)))
    else None
  }

  function SettleReplay(b: Books, seen: Settlement, id: string, cumulative: int, gpuSeconds: int, final: bool): Reply
  {
    if seen.holdId != id || seen.cumulative != cumulative || seen.gpuSeconds != gpuSeconds || seen.final != final
    then Failed(IdempotencyConflict)
    else if id !in b.holds then Failed(HoldNotFound)
    else SettledTo(b.holds[id], 0, 0, true)
  }

  function SettleTx(b: Books, id: string, eventId: string, cumulative: int, gpuSeconds: int, final: bool,
                    late: bool, now: int): Decision
  {
    if cumulative < 0 || cumulative > MAX_QUOTA || gpuSeconds < 0 then Answer(Failed(QuotaOutOfRange))
    else if !late && eventId in b.settlements then
      Answer(SettleReplay(b, b.settlements[eventId], id, cumulative, gpuSeconds, final))
    else if id !in b.holds then Answer(Failed(HoldNotFound))
    else if Refusal(b, id, now).Some? then Refusal(b, id, now).value
    else
      var hold := b.holds[id];
      if cumulative > hold.quota then Answer(Failed(HoldExceeded))
      else if cumulative < hold.settled then Answer(Failed(SettlementRegressed))
      else if eventId in b.settlements then
        Answer(SettleReplay(b, b.settlements[eventId], id, cumulative, gpuSeconds, final))
      else
        var delta := cumulative - hold.settled;
        var released := if final then hold.quota - cumulative else 0;
        var hold' := hold.(settled := cumulative, updatedAt := now, released := released,
                           status := if final then Settled else Active);
        Write(id, hold', released, SettlementRow(eventId, Settlement(id, cumulative, delta, gpuSeconds, final, now)),
              SettledTo(hold', delta, released, false))
  }

  function ExtendReplay(seen: Extension, id: string, additional: int): Reply
  {
    if seen.holdId != id || seen.additional != additional then Failed(IdempotencyConflict) else Extended(seen, true)
  }

  function ExtendTx(b: Books, id: string, extendId: string, additional: int, token: Option<Token>,
                    late: bool, now: int): Decision
  {
    if additional <= 0 || additional > MAX_QUOTA then Answer(Failed(QuotaOutOfRange))
    else if !late && extendId in b.extensions then Answer(ExtendReplay(b.extensions[extendId], id, additional))
    else if token.None? then Answer(Failed(InvalidToken))
    else if !token.value.unlimited && token.value.remain < additional then Answer(Failed(TokenQuotaShort))
    else if id !in b.holds then Answer(Failed(HoldNotFound))
    else if Refusal(b, id, now).Some? then Refusal(b, id, now).value
    else
      var hold := b.holds[id];
      if hold.tokenId != token.value.id then Answer(Failed(IdempotencyConflict))
      else if hold.quota + additional > MAX_QUOTA then Answer(Failed(QuotaOutOfRange))
      else if hold.userId !in b.tenants then Answer(Failed(NoSuchUser))
      else if !CanPay(b, hold.userId, additional) then Answer(Failed(InsufficientBalance))
      else if extendId in b.extensions then Answer(ExtendReplay(b.extensions[extendId], id, additional))
      else
        var remain := b.wallets[EntityOf(b, hold.userId)] - additional;
        var extension := Extension(id, additional, hold.quota + additional, remain, now);
        Write(id, hold.(quota := hold.quota + additional, updatedAt := now), -additional,
              ExtensionRow(extendId, extension), Extended(extension, false))
  }

  function ReleaseTx(b: Books, id: string, now: int): Decision
  {
    if id !in b.holds then Answer(Failed(HoldNotFound))
    else
      var hold := b.holds[id];
      if hold.status == Released || hold.status == Settled then Answer(ReleasedHold(hold))
      else if Refusal(b, id, now).Some? then Refusal(b, id, now).value
      else
        var remainder := hold.quota - hold.settled;
        var hold' := hold.(status := Released, released := remainder, updatedAt := now);
        Write(id, hold', remainder, NoRow, ReleasedHold(hold'))
  }

  predicate Verb(op: Op)
  {
    op.Create? || op.Settle? || op.Extend? || op.Release? || op.Expire?
  }

  function Decide(b: Books, op: Op): Decision
    requires Verb(op)
  {
    match op
    case Create(id, r, token, late, now) => CreateTx(b, id, r, token, late, now)
    case Settle(id, eventId, cumulative, gpuSeconds, final, late, now) =>
      SettleTx(b, id, eventId, cumulative, gpuSeconds, final, late, now)
    case Extend(id, extendId, additional, token, late, now) => ExtendTx(b, id, extendId, additional, token, late, now)
    case Release(id, now) => ReleaseTx(b, id, now)
    case Expire(id, now) => ExpireTx(b, id, now)
  }

  function Step(b: Books, op: Op): (Books, Reply)
  {
    match op
    case TokenStep(t, amount) =>
      (b.(tokens := Owe(b.tokens, t, amount), due := Owe(b.due, t, -amount)), Done)
    case External(e, amount) => (b.(wallets := Moved(b.wallets, e, amount)), Done)
    case Assign(u, tenantId) =>
      if u in b.tenants && EntityFor(u, tenantId) in b.wallets
      then (b.(tenants := b.tenants[u := tenantId]), Done)
      else (b, Failed(NoSuchUser))
    case _ => Commit(b, Decide(b, op))
  }

  function Run(b: Books, ops: seq<Op>): Books
  {
    if ops == [] then b else Step(Run(b, ops[..|ops| - 1]), ops[|ops| - 1]).0
  }

  // ----- What the books mean -----

  /** What a hold has taken from wallets and not given back. */
  function Taken(h: Hold): int
  {
    h.quota - h.released
  }

  function Spent(h: Hold): int
  {
    h.settled
  }

  function Amount(x: int): int
  {
    x
  }

  /** All the money there is: wallets plus what holds have taken. */
  ghost function Money(b: Books): int
  {
    SumBy(b.wallets, Amount) + SumBy(b.holds, Taken)
  }

  function DeltaFor(id: string): Settlement -> int
  {
    (s: Settlement) => if s.holdId == id then s.delta else 0
  }

  function AddedTo(id: string): Extension -> int
  {
    (x: Extension) => if x.holdId == id then x.additional else 0
  }

  function TakenBy(tokenId: int): Hold -> int
  {
    (h: Hold) => if h.tokenId == tokenId then Taken(h) else 0
  }

  /** The wallet a hold was opened on. */
  function Home(h: Hold): Entity
  {
    EntityFor(h.userId, h.tenantId)
  }

  function TakenFrom(e: Entity): Hold -> int
  {
    (h: Hold) => if Home(h) == e then Taken(h) else 0
  }

  /** A token's remaining quota, plus movements under way, plus what its holds have taken. */
  ghost function TokenMoney(b: Books, tokenId: int): int
  {
    Known(b.tokens, tokenId) + Known(b.due, tokenId) + SumBy(b.holds, TakenBy(tokenId))
  }

  /** A wallet plus what the holds opened on it have taken. */
  ghost function WalletMoney(b: Books, e: Entity): int
  {
    Known(b.wallets, e) + SumBy(b.holds, TakenFrom(e))
  }

  /** An open hold has released nothing; a closed one is fully split into settled and released. */
  ghost predicate HoldOk(h: Hold)
  {
    && 0 <= h.settled <= h.quota <= MAX_QUOTA
    && 0 < h.requested <= h.quota
    && (if h.status == Active then h.released == 0 else h.settled + h.released == h.quota)
  }

  /** A hold agrees with its settlement rows and its extension rows. */
  ghost predicate Backed(b: Books, id: string)
    requires id in b.holds
  {
    && b.holds[id].settled == SumBy(b.settlements, DeltaFor(id))
    && b.holds[id].quota == b.holds[id].requested + SumBy(b.extensions, AddedTo(id))
  }

  ghost predicate RowsOk(b: Books)
  {
    && (forall id :: id in b.holds ==> HoldOk(b.holds[id]) && b.holds[id].userId in b.tenants)
    && (forall u :: u in b.tenants ==> EntityOf(b, u) in b.wallets)
    && (forall s :: s in b.settlements ==> b.settlements[s].holdId in b.holds)
    && (forall x :: x in b.extensions ==> b.extensions[x].holdId in b.holds)
  }

  ghost predicate Ok(b: Books)
  {
    RowsOk(b) && forall id :: id in b.holds ==> Backed(b, id)
  }

  // ----- Every write is sound -----

  /** The fields of a hold a request is identified by, which no later verb touches. */
  ghost predicate SameRequest(h: Hold, h': Hold)
  {
    h == h'.(quota := h.quota, settled := h.settled, released := h.released, status := h.status,
             updatedAt := h.updatedAt)
  }

  ghost predicate Sound(b: Books, d: Decision)
  {
    d.Answer? ||
    (&& HoldOk(d.hold) && d.hold.userId in b.tenants
     && (if d.id in b.holds then
           var h := b.holds[d.id];
           && h.status == Active && SameRequest(h, d.hold)
           && d.amount == Taken(h) - Taken(d.hold)
           && d.hold.settled == h.settled + (if d.row.SettlementRow? then d.row.settlement.delta else 0)
           && d.hold.quota == h.quota + (if d.row.ExtensionRow? then d.row.extension.additional else 0)
         else
           && d.row.NoRow? && d.amount == -Taken(d.hold)
           && d.hold.status == Active && d.hold.settled == 0 && d.hold.quota == d.hold.requested
           && d.hold.tenantId == b.tenants[d.hold.userId])
     && (d.row.SettlementRow? ==>
         d.row.eventId !in b.settlements && d.row.settlement.holdId == d.id && d.row.settlement.delta >= 0)
     && (d.row.ExtensionRow? ==>
         d.row.extendId !in b.extensions && d.row.extension.holdId == d.id && d.row.extension.additional > 0)
     && (d.amount < 0 ==> CanPay(b, d.hold.userId, -d.amount)))
  }

  lemma DecisionsAreSound(b: Books, op: Op)
    requires RowsOk(b) && Verb(op)
    ensures Sound(b, Decide(b, op))
  {
    if op.Settle? && op.id in b.holds { ExpiryIsSound(b, op.id, op.now); }
    if op.Extend? && op.id in b.holds { ExpiryIsSound(b, op.id, op.now); }
    if op.Release? && op.id in b.holds { ExpiryIsSound(b, op.id, op.now); }
  }

  lemma ExpiryIsSound(b: Books, id: string, now: int)
    requires RowsOk(b) && id in b.holds
    ensures Sound(b, ExpireTx(b, id, now))
    ensures Refusal(b, id, now).Some? ==> Sound(b, Refusal(b, id, now).value)
    ensures Refusal(b, id, now).None? ==> b.holds[id].status == Active
  {
  }

  // ----- Conservation -----

  /** No sound write makes or loses money, in the wallets or in the tokens. */
  lemma CommitConserves(b: Books, d: Decision, tokenId: int)
    requires RowsOk(b) && Sound(b, d)
    ensures Money(Commit(b, d).0) == Money(b)
    ensures TokenMoney(Commit(b, d).0, tokenId) == TokenMoney(b, tokenId)
  {
    if d.Write? {
      var e := EntityOf(b, d.hold.userId);
      SumPut(b.wallets, e, b.wallets[e] + d.amount, Amount);
      SumPut(b.holds, d.id, d.hold, Taken);
      SumPut(b.holds, d.id, d.hold, TakenBy(tokenId));
    }
  }

  function Injected(b: Books, op: Op): int
  {
    if op.External? && op.entity in b.wallets then op.amount else 0
  }

  lemma StepConserves(b: Books, op: Op, tokenId: int)
    requires RowsOk(b)
    ensures Money(Step(b, op).0) == Money(b) + Injected(b, op)
    ensures TokenMoney(Step(b, op).0, tokenId) == TokenMoney(b, tokenId)
  {
    if Verb(op) {
      DecisionsAreSound(b, op);
      CommitConserves(b, Decide(b, op), tokenId);
    } else if op.External? && op.entity in b.wallets {
      SumPut(b.wallets, op.entity, b.wallets[op.entity] + op.amount, Amount);
    }
  }

  lemma StepKeepsOk(b: Books, op: Op)
    requires Ok(b)
    ensures Ok(Step(b, op).0)
  {
    if Verb(op) {
      DecisionsAreSound(b, op);
      CommitKeepsOk(b, Decide(b, op));
    } else {
      OtherStepsKeepOk(b, op);
    }
  }

  lemma OtherStepsKeepOk(b: Books, op: Op)
    requires Ok(b) && !Verb(op)
    ensures Ok(Step(b, op).0)
  {
    var b' := Step(b, op).0;
    assert RowsOk(b');
    forall id | id in b'.holds
      ensures Backed(b', id)
    {
      assert Backed(b, id);
    }
  }

  lemma CommitKeepsOk(b: Books, d: Decision)
    requires Ok(b) && Sound(b, d)
    ensures Ok(Commit(b, d).0)
  {
    CommitKeepsRows(b, d);
    forall id | id in Commit(b, d).0.holds
      ensures Backed(Commit(b, d).0, id)
    {
      if d.Write? { CommitKeepsBacked(b, d, id); }
    }
  }

  lemma CommitKeepsRows(b: Books, d: Decision)
    requires RowsOk(b) && Sound(b, d)
    ensures RowsOk(Commit(b, d).0)
  {
  }

  lemma CommitKeepsBacked(b: Books, d: Decision, id: string)
    requires RowsOk(b) && Sound(b, d) && d.Write?
    requires id in b.holds ==> Backed(b, id)
    requires id in Commit(b, d).0.holds
    ensures Backed(Commit(b, d).0, id)
  {
    if id in b.holds {
      if d.row.SettlementRow? { SumPut(b.settlements, d.row.eventId, d.row.settlement, DeltaFor(id)); }
      if d.row.ExtensionRow? { SumPut(b.extensions, d.row.extendId, d.row.extension, AddedTo(id)); }
    } else {
      SumZero(b.settlements, DeltaFor(id));
      SumZero(b.extensions, AddedTo(id));
    }
  }

  ghost function InjectedBy(b: Books, ops: seq<Op>): int
  {
    if ops == [] then 0
    else
      var before := ops[..|ops| - 1];
      InjectedBy(b, before) + Injected(Run(b, before), ops[|ops| - 1])
  }

  /**
   Over every run the books stay consistent and the total only changes by what
   came from outside: quota is neither created nor lost by any order of holds,
   settlements, extensions, releases, expiries, replays and tenant changes.
   */
  lemma {:induction false} EveryRunConserves(b: Books, ops: seq<Op>, tokenId: int)
    requires Ok(b)
    ensures Ok(Run(b, ops))
    ensures Money(Run(b, ops)) == Money(b) + InjectedBy(b, ops)
    ensures TokenMoney(Run(b, ops), tokenId) == TokenMoney(b, tokenId)
  {
    if ops != [] {
      var before := ops[..|ops| - 1];
      EveryRunConserves(b, before, tokenId);
      StepKeepsOk(Run(b, before), ops[|ops| - 1]);
      StepConserves(Run(b, before), ops[|ops| - 1], tokenId);
    }
  }

  /** Once every hold is closed, the wallets are short by exactly the settled spend. */
  lemma ClosedBooks(b: Books, ops: seq<Op>)
    requires Ok(b) && b.holds == map[]
    requires forall id :: id in Run(b, ops).holds ==> Run(b, ops).holds[id].status != Active
    ensures SumBy(Run(b, ops).wallets, Amount) ==
            SumBy(b.wallets, Amount) + InjectedBy(b, ops) - SumBy(Run(b, ops).holds, Spent)
  {
    EveryRunConserves(b, ops, 0);
    SumSame(Run(b, ops).holds, Taken, Spent);
  }

  lemma NeverOverdraws(b: Books, op: Op, e: Entity)
    requires RowsOk(b) && Verb(op)
    ensures Known(b.wallets, e) >= 0 ==> Known(Step(b, op).0.wallets, e) >= 0
  {
    DecisionsAreSound(b, op);
  }

  // ----- Rows only grow, and closed holds are frozen -----

  ghost predicate Later(h: Hold, h': Hold)
  {
    && SameRequest(h, h')
    && h.settled <= h'.settled && h.quota <= h'.quota
    && (h.status != Active ==> h' == h)
  }

  ghost predicate Grew(b: Books, b': Books)
  {
    && (forall id :: id in b.holds ==> id in b'.holds && Later(b.holds[id], b'.holds[id]))
    && (forall s :: s in b.settlements ==> s in b'.settlements && b'.settlements[s] == b.settlements[s])
    && (forall x :: x in b.extensions ==> x in b'.extensions && b'.extensions[x] == b.extensions[x])
  }

  lemma StepGrew(b: Books, op: Op)
    requires RowsOk(b)
    ensures Grew(b, Step(b, op).0)
  {
    if Verb(op) {
      DecisionsAreSound(b, op);
      CommitGrew(b, Decide(b, op));
    }
  }

  lemma CommitGrew(b: Books, d: Decision)
    requires Sound(b, d)
    ensures Grew(b, Commit(b, d).0)
  {
  }

  /** In every continuation, settled and held amounts never shrink and a closed hold never changes again. */
  lemma {:induction false} EveryRunGrows(b: Books, ops: seq<Op>)
    requires Ok(b)
    ensures Grew(b, Run(b, ops))
  {
    if ops != [] {
      var before := ops[..|ops| - 1];
      EveryRunGrows(b, before);
      EveryRunConserves(b, before, 0);
      var mid, last := Run(b, before), Run(b, ops);
      StepGrew(mid, ops[|ops| - 1]);
      forall id | id in b.holds
        ensures id in last.holds && Later(b.holds[id], last.holds[id])
      {
        assert Later(b.holds[id], mid.holds[id]) && Later(mid.holds[id], last.holds[id]);
      }
    }
  }

  // ----- Idempotency -----

  /**
   A settlement that was applied stays applied: in every later state the same
   event moves nothing and answers with the hold as it stands, and the same
   event id carrying anything else is a conflict that moves nothing.
   */
  lemma SettleIsIdempotent(b: Books, op: Op, ops: seq<Op>, again: Op)
    requires Ok(b) && op.Settle? && Step(b, op).1.SettledTo? && !Step(b, op).1.replayed
    requires again.Settle? && again.eventId == op.eventId && !again.late
    requires 0 <= again.cumulative <= MAX_QUOTA && again.gpuSeconds >= 0
    ensures var b' := Run(Step(b, op).0, ops);
            && op.id in b'.holds
            && Step(b', again) ==
               (b', if again.id == op.id && again.cumulative == op.cumulative &&
                       again.gpuSeconds == op.gpuSeconds && again.final == op.final
                    then SettledTo(b'.holds[op.id], 0, 0, true) else Failed(IdempotencyConflict))
  {
    SettleLeavesItsRow(b, op);
    StepKeepsOk(b, op);
    var b' := Run(Step(b, op).0, ops);
    assert op.id in b'.holds && op.eventId in b'.settlements &&
           b'.settlements[op.eventId] == Step(b, op).0.settlements[op.eventId] by {
      EveryRunGrows(Step(b, op).0, ops);
    }
    SettleReplays(b', again);
  }

  lemma SettleReplays(b: Books, op: Op)
    requires op.Settle? && op.eventId in b.settlements && 0 <= op.cumulative <= MAX_QUOTA && op.gpuSeconds >= 0 &&
             !op.late
    ensures Step(b, op) ==
            (b, SettleReplay(b, b.settlements[op.eventId], op.id, op.cumulative, op.gpuSeconds, op.final))
  {
  }

  lemma SettleLeavesItsRow(b: Books, op: Op)
    requires RowsOk(b) && op.Settle? && Step(b, op).1.SettledTo? && !Step(b, op).1.replayed
    ensures var b' := Step(b, op).0;
            && op.id in b'.holds && op.eventId in b'.settlements
            && var row := b'.settlements[op.eventId];
               && row.holdId == op.id && row.cumulative == op.cumulative
               && row.gpuSeconds == op.gpuSeconds && row.final == op.final
  {
    assert op.id in b.holds && Refusal(b, op.id, op.now).None?;
  }

  lemma CreateIsIdempotent(b: Books, op: Op, ops: seq<Op>, again: Op)
    requires Ok(b) && op.Create? && Step(b, op).1.Created? && !Step(b, op).1.replayed
    requires again.Create? && again.id == op.id && 0 < again.request.quota <= MAX_QUOTA && !again.late
    ensures var b' := Run(Step(b, op).0, ops);
            && op.id in b'.holds
            && Step(b', again) ==
               (b', if again.request == op.request then Created(b'.holds[op.id], true) else Failed(IdempotencyConflict))
  {
    StepKeepsOk(b, op);
    EveryRunGrows(Step(b, op).0, ops);
  }

  lemma ExtendIsIdempotent(b: Books, op: Op, ops: seq<Op>, again: Op)
    requires Ok(b) && op.Extend? && Step(b, op).1.Extended? && !Step(b, op).1.replayed
    requires again.Extend? && again.extendId == op.extendId && 0 < again.additional <= MAX_QUOTA && !again.late
    ensures var b' := Run(Step(b, op).0, ops);
            Step(b', again) ==
            (b', if again.id == op.id && again.additional == op.additional then Extended(Step(b, op).1.extension, true)
                 else Failed(IdempotencyConflict))
  {
    ExtendLeavesItsRow(b, op);
    StepKeepsOk(b, op);
    var b' := Run(Step(b, op).0, ops);
    assert op.extendId in b'.extensions && b'.extensions[op.extendId] == Step(b, op).1.extension by {
      EveryRunGrows(Step(b, op).0, ops);
    }
    ExtendReplays(b', again);
  }

  lemma ExtendReplays(b: Books, op: Op)
    requires op.Extend? && op.extendId in b.extensions && 0 < op.additional <= MAX_QUOTA && !op.late
    ensures Step(b, op) == (b, ExtendReplay(b.extensions[op.extendId], op.id, op.additional))
  {
  }

  lemma ExtendLeavesItsRow(b: Books, op: Op)
    requires RowsOk(b) && op.Extend? && Step(b, op).1.Extended? && !Step(b, op).1.replayed
    ensures var b', x := Step(b, op).0, Step(b, op).1.extension;
            && x.holdId == op.id && x.additional == op.additional
            && op.extendId in b'.extensions && b'.extensions[op.extendId] == x
  {
    assert op.id in b.holds && Refusal(b, op.id, op.now).None?;
  }

  /** A release, once answered, is answered the same way forever and pays out once. */
  lemma ReleaseIsIdempotent(b: Books, op: Op, ops: seq<Op>, now: int)
    requires Ok(b) && op.Release? && Step(b, op).1.ReleasedHold?
    ensures var b' := Run(Step(b, op).0, ops);
            Step(b', Release(op.id, now)) == (b', Step(b, op).1)
  {
    ReleaseLeavesItClosed(b, op);
    StepKeepsOk(b, op);
    EveryRunGrows(Step(b, op).0, ops);
  }

  lemma ReleaseLeavesItClosed(b: Books, op: Op)
    requires RowsOk(b) && op.Release? && Step(b, op).1.ReleasedHold?
    ensures var b', hold := Step(b, op).0, Step(b, op).1.hold;
            op.id in b'.holds && b'.holds[op.id] == hold && (hold.status == Released || hold.status == Settled)
  {
    assert op.id in b.holds;
  }

  // ----- Answers, refusals and stale reads -----

  /**
   A fresh settlement reports the new spend and exactly what the wallet got back,
   which is nothing unless it is final.
   */
  lemma SettleTellsTheTruth(b: Books, op: Op)
    requires RowsOk(b) && op.Settle? && Step(b, op).1.SettledTo? && !Step(b, op).1.replayed
    ensures var (b', reply) := Step(b, op);
            && op.id in b.holds && op.id in b'.holds && reply.hold == b'.holds[op.id]
            && var h, h' := b.holds[op.id], b'.holds[op.id];
               && h.settled <= h'.settled == op.cumulative <= h.quota == h'.quota
               && reply.delta == h'.settled - h.settled
               && Known(b'.wallets, EntityOf(b, h.userId)) == Known(b.wallets, EntityOf(b, h.userId)) + reply.released
               && (if op.final then h'.status == Settled && reply.released == h'.quota - h'.settled
                   else h'.status == Active && reply.released == 0)
               && h'.released == reply.released && h'.updatedAt == op.now && SameRequest(h, h')
               && op.eventId in b'.settlements
               && b'.settlements[op.eventId] ==
                  Settlement(op.id, op.cumulative, reply.delta, op.gpuSeconds, op.final, op.now)
  {
    assert op.id in b.holds && Refusal(b, op.id, op.now).None?;
  }

  /** A refused verb changes nothing, except that meeting a lapsed hold expires it as the sweep would. */
  lemma RefusalsMoveNothing(b: Books, op: Op)
    requires Verb(op) && Step(b, op).1.Failed?
    ensures Step(b, op).0 == b ||
            (&& Step(b, op).1 == Failed(HoldExpired) && Lapsed(b, op.id, op.now)
             && Step(b, op).0 == Step(b, Expire(op.id, op.now)).0)
  {
    var d := Decide(b, op);
    if d.Write? && d.reply.Failed? { OnlyLapsesAreWritten(b, op); }
  }

  lemma OnlyLapsesAreWritten(b: Books, op: Op)
    requires Verb(op) && Decide(b, op).Write? && Decide(b, op).reply.Failed?
    ensures Lapsed(b, op.id, op.now) && Decide(b, op) == ExpireTx(b, op.id, op.now).(reply := Failed(HoldExpired))
  {
    assert op.id in b.holds;
  }

  /** The hold is open and its time has not come. */
  predicate Usable(b: Books, id: string, now: int)
  {
    id in b.holds && b.holds[id].status == Active && b.holds[id].expiresAt > now
  }

  predicate Affords(b: Books, token: Option<Token>, tokenId: int, userId: int, quota: int)
  {
    && token.Some? && token.value.id == tokenId && (token.value.unlimited || token.value.remain >= quota)
    && userId in b.tenants && CanPay(b, userId, quota)
  }

  /** The terms of each verb, for a request that is not a replay. */
  predicate Acceptable(b: Books, op: Op)
    requires Verb(op)
  {
    match op
    case Create(id, r, token, _, _) =>
      && 0 < r.quota <= MAX_QUOTA && id !in b.holds
      && Affords(b, token, r.tokenId, r.userId, r.quota) && token.value.userId == r.userId
    case Settle(id, eventId, cumulative, gpuSeconds, _, _, now) =>
      && gpuSeconds >= 0 && eventId !in b.settlements && Usable(b, id, now)
      && b.holds[id].settled <= cumulative <= b.holds[id].quota
    case Extend(id, extendId, additional, token, _, now) =>
      && additional > 0 && extendId !in b.extensions && Usable(b, id, now)
      && Affords(b, token, b.holds[id].tokenId, b.holds[id].userId, additional)
      && b.holds[id].quota + additional <= MAX_QUOTA
    case Release(id, now) =>
      Usable(b, id, now) || (id in b.holds && (b.holds[id].status == Released || b.holds[id].status == Settled))
    case Expire(id, now) => Lapsed(b, id, now)
  }

  predicate DidIt(r: Reply)
  {
    || (r.Created? && !r.replayed) || (r.SettledTo? && !r.replayed) || (r.Extended? && !r.replayed)
    || r.ReleasedHold? || r == Swept(true)
  }

  /** A verb goes through exactly on its terms: nothing is refused that should not be. */
  lemma GoesThroughExactlyWhen(b: Books, op: Op)
    requires RowsOk(b) && Verb(op)
    ensures DidIt(Step(b, op).1) <==> Acceptable(b, op)
  {
    assert Step(b, op).1 == Decide(b, op).reply by { DecisionsAreSound(b, op); }
    DecidesOnItsTerms(b, op);
  }

  lemma DecidesOnItsTerms(b: Books, op: Op)
    requires RowsOk(b) && Verb(op)
    ensures DidIt(Decide(b, op).reply) <==> Acceptable(b, op)
  {
    if op.Settle? {
      SettlesOnItsTerms(b, op);
    } else if op.Extend? {
      ExtendsOnItsTerms(b, op);
    }
  }

  lemma SettlesOnItsTerms(b: Books, op: Op)
    requires RowsOk(b) && op.Settle?
    ensures DidIt(Decide(b, op).reply) <==> Acceptable(b, op)
    ensures Decide(b, op).reply.Failed? || Decide(b, op).reply.SettledTo?
  {
  }

  lemma ExtendsOnItsTerms(b: Books, op: Op)
    requires RowsOk(b) && op.Extend?
    ensures DidIt(Decide(b, op).reply) <==> Acceptable(b, op)
    ensures Decide(b, op).reply.Failed? || Decide(b, op).reply.Extended?
  {
  }

  predicate OnOldHold(op: Op)
  {
    op.Settle? || op.Extend? || op.Release? || op.Expire?
  }

  /** The guard of the conditional update. */
  predicate SameGuard(h: Hold, h': Hold)
  {
    h.status == h'.status && h.quota == h'.quota && h.settled == h'.settled
  }

  /**
   Without row locks a verb may decide on a hold row it read earlier. Whatever
   ran in between, if the guard of its update still matches then what it writes
   is what it would have decided on the row as it is now.
   */
  lemma StaleReadsAreHarmless(b: Books, ops: seq<Op>, op: Op)
    requires Ok(b) && OnOldHold(op) && op.id in b.holds
    requires op.id in Run(b, ops).holds && SameGuard(b.holds[op.id], Run(b, ops).holds[op.id])
    ensures var now := Run(b, ops);
            var stale := now.(holds := now.holds[op.id := b.holds[op.id]]);
            Decide(stale, op).Write? ==> Decide(stale, op) == Decide(now, op)
  {
    var now := Run(b, ops);
    var stale := now.(holds := now.holds[op.id := b.holds[op.id]]);
    EveryRunGrows(b, ops);
    EveryRunConserves(b, ops, 0);
    SameWrite(stale, now, op);
  }

  lemma SameWrite(stale: Books, now: Books, op: Op)
    requires OnOldHold(op) && op.id in stale.holds && op.id in now.holds
    requires stale == now.(holds := now.holds[op.id := stale.holds[op.id]])
    requires var h, h' := stale.holds[op.id], now.holds[op.id]; h == h'.(updatedAt := h.updatedAt)
    ensures Decide(stale, op).Write? ==> Decide(stale, op) == Decide(now, op)
  {
    assert Refusal(stale, op.id, op.now) == Refusal(now, op.id, op.now);
  }

  // ----- Retries that overlap the first call -----

  predicate Retryable(op: Op)
  {
    op.Create? || op.Settle? || op.Extend?
  }

  predicate InRange(op: Op)
    requires Retryable(op)
  {
    match op
    case Create(_, r, _, _, _) => 0 < r.quota <= MAX_QUOTA
    case Settle(_, _, cumulative, gpuSeconds, _, _, _) => 0 <= cumulative <= MAX_QUOTA && gpuSeconds >= 0
    case Extend(_, _, additional, _, _, _) => 0 < additional <= MAX_QUOTA
  }

  /** The row that makes a request a duplicate is there. */
  predicate Duplicate(b: Books, op: Op)
    requires Retryable(op)
  {
    match op
    case Create(id, _, _, _, _) => id in b.holds
    case Settle(_, eventId, _, _, _, _, _) => eventId in b.settlements
    case Extend(_, extendId, _, _, _, _) => extendId in b.extensions
  }

  predicate SameKey(op: Op, again: Op)
  {
    || (op.Create? && again.Create? && op.id == again.id)
    || (op.Settle? && again.Settle? && op.eventId == again.eventId)
    || (op.Extend? && again.Extend? && op.extendId == again.extendId)
  }

  /** A duplicate whose lookup came too early gets as far as the row it duplicates. */
  predicate GetsThere(b: Books, op: Op)
    requires Retryable(op)
  {
    match op
    case Create(id, r, token, _, _) =>
      && token.Some? && token.value.id == r.tokenId && token.value.userId == r.userId
      && (token.value.unlimited || token.value.remain >= r.quota) && r.userId in b.tenants
    case Settle(id, _, cumulative, _, _, _, now) =>
      Usable(b, id, now) && b.holds[id].settled <= cumulative <= b.holds[id].quota
    case Extend(id, _, additional, token, _, now) =>
      && Usable(b, id, now) && Affords(b, token, b.holds[id].tokenId, b.holds[id].userId, additional)
      && b.holds[id].quota + additional <= MAX_QUOTA
  }

  /** It is answered as a replay exactly if it gets there; otherwise it is refused like a new request. */
  lemma LateDuplicates(b: Books, op: Op)
    requires RowsOk(b) && Retryable(op) && op.late && InRange(op) && Duplicate(b, op)
    ensures if GetsThere(b, op) then Decide(b, op) == Decide(b, op.(late := false)) && Decide(b, op).Answer?
            else Decide(b, op).reply.Failed?
  {
    if op.id in b.holds { ExpiryIsSound(b, op.id, op.now); }
  }

  /** Whatever runs after it, a request that went through leaves its row for its retries to meet. */
  lemma DuplicatesLast(b: Books, op: Op, ops: seq<Op>, again: Op)
    requires Ok(b) && Retryable(op) && DidIt(Step(b, op).1) && SameKey(op, again)
    ensures Ok(Run(Step(b, op).0, ops)) && Duplicate(Run(Step(b, op).0, ops), again)
  {
    var mid := Step(b, op).0;
    assert Ok(mid) by { StepKeepsOk(b, op); }
    assert Duplicate(mid, op) by { LeavesItsRow(b, op); }
    assert Ok(Run(mid, ops)) by { EveryRunConserves(mid, ops, 0); }
    assert Grew(mid, Run(mid, ops)) by { EveryRunGrows(mid, ops); }
    DuplicateStays(mid, Run(mid, ops), op);
  }

  lemma DuplicateStays(b: Books, b': Books, op: Op)
    requires Grew(b, b') && Retryable(op) && Duplicate(b, op)
    ensures Duplicate(b', op)
  {
  }

  lemma LeavesItsRow(b: Books, op: Op)
    requires RowsOk(b) && Retryable(op) && DidIt(Step(b, op).1)
    ensures Duplicate(Step(b, op).0, op)
  {
    assert Step(b, op).1 == Decide(b, op).reply by { DecisionsAreSound(b, op); }
    if op.Settle? {
      SettlesOnItsTerms(b, op);
      SettleLeavesItsRow(b, op);
    } else if op.Extend? {
      ExtendsOnItsTerms(b, op);
      ExtendLeavesItsRow(b, op);
    }
  }

  /**
   A retry that overlaps the first call, so that its lookup found nothing, still
   moves nothing whenever it comes to its transaction, except that meeting a
   lapsed hold expires it. It is answered as a replay exactly if it gets as far
   as the row it duplicates.
   */
  lemma OverlappingRetry(b: Books, op: Op, ops: seq<Op>, again: Op)
    requires Ok(b) && Retryable(op) && DidIt(Step(b, op).1)
    requires SameKey(op, again) && again.late && InRange(again)
    ensures var b' := Run(Step(b, op).0, ops);
            && (if GetsThere(b', again) then Step(b', again) == Step(b', again.(late := false))
                else Step(b', again).1.Failed?)
            && (|| Step(b', again).0 == b'
                || (Lapsed(b', again.id, again.now) && Step(b', again).0 == Step(b', Expire(again.id, again.now)).0))
  {
    var b' := Run(Step(b, op).0, ops);
    DuplicatesLast(b, op, ops, again);
    LateDuplicates(b', again);
    LateMovesNothing(b', again);
  }

  lemma LateMovesNothing(b: Books, op: Op)
    requires RowsOk(b) && Retryable(op) && op.late && InRange(op) && Duplicate(b, op)
    ensures GetsThere(b, op) ==> Step(b, op) == Step(b, op.(late := false)) && Step(b, op).0 == b
    ensures !GetsThere(b, op) ==> Step(b, op).1.Failed?
    ensures || Step(b, op).0 == b
            || (Lapsed(b, op.id, op.now) && Step(b, op).0 == Step(b, Expire(op.id, op.now)).0)
  {
    LateDuplicates(b, op);
    if !GetsThere(b, op) { RefusalsMoveNothing(b, op); }
  }

  /**
   An overlapping retry of a final settlement is told that the hold is closed,
   although the settlement was applied.
   */
  lemma FinalSettleRetryIsRefused(b: Books, op: Op, ops: seq<Op>, now: int)
    requires Ok(b) && op.Settle? && op.final && Step(b, op).1.SettledTo? && !Step(b, op).1.replayed
    ensures var b' := Run(Step(b, op).0, ops);
            Step(b', Overlapping(op, now)) == (b', Failed(HoldClosed))
  {
    SettleTellsTheTruth(b, op);
    StepKeepsOk(b, op);
    EveryRunGrows(Step(b, op).0, ops);
    ClosedIsRefused(Run(Step(b, op).0, ops), Overlapping(op, now));
  }

  /** The same settlement, looked up before the first one was applied. */
  function Overlapping(op: Op, now: int): Op
    requires op.Settle?
  {
    Settle(op.id, op.eventId, op.cumulative, op.gpuSeconds, op.final, true, now)
  }

  lemma ClosedIsRefused(b: Books, op: Op)
    requires op.Settle? && op.late && InRange(op) && op.id in b.holds && b.holds[op.id].status == Settled
    ensures Step(b, op) == (b, Failed(HoldClosed))
  {
  }

  // ----- Which wallet is paid back -----

  /** Every login with an open hold still spends from the wallet the hold was opened on. */
  ghost predicate AtHome(b: Books)
  {
    forall id :: id in b.holds && b.holds[id].status == Active && b.holds[id].userId in b.tenants ==>
      EntityOf(b, b.holds[id].userId) == Home(b.holds[id])
  }

  ghost predicate Uproots(b: Books, op: Op)
  {
    op.Assign? && exists id :: id in b.holds && b.holds[id].status == Active && b.holds[id].userId == op.userId
  }

  /** No login changes wallets while one of its holds is open. */
  ghost predicate Rooted(b: Books, ops: seq<Op>)
  {
    ops == [] || (Rooted(b, ops[..|ops| - 1]) && !Uproots(Run(b, ops[..|ops| - 1]), ops[|ops| - 1]))
  }

  ghost function InjectedInto(b: Books, e: Entity, ops: seq<Op>): int
  {
    if ops == [] then 0
    else
      var before := ops[..|ops| - 1];
      var op := ops[|ops| - 1];
      InjectedInto(b, e, before) + if op.External? && op.entity == e then Injected(Run(b, before), op) else 0
  }

  /** Wallet by wallet, each one is made whole as long as no login with an open hold changes wallets. */
  lemma {:induction false} EveryWalletConserves(b: Books, ops: seq<Op>, e: Entity)
    requires Ok(b) && AtHome(b) && Rooted(b, ops)
    ensures AtHome(Run(b, ops))
    ensures WalletMoney(Run(b, ops), e) == WalletMoney(b, e) + InjectedInto(b, e, ops)
  {
    if ops != [] {
      var before := ops[..|ops| - 1];
      EveryWalletConserves(b, before, e);
      EveryRunConserves(b, before, 0);
      StepKeepsWallet(Run(b, before), ops[|ops| - 1], e);
    }
  }

  lemma StepKeepsWallet(b: Books, op: Op, e: Entity)
    requires Ok(b) && AtHome(b) && !Uproots(b, op)
    ensures AtHome(Step(b, op).0)
    ensures WalletMoney(Step(b, op).0, e) ==
            WalletMoney(b, e) + if op.External? && op.entity == e then Injected(b, op) else 0
  {
    if Verb(op) {
      DecisionsAreSound(b, op);
      CommitKeepsWallet(b, Decide(b, op), e);
    }
  }

  lemma CommitKeepsWallet(b: Books, d: Decision, e: Entity)
    requires RowsOk(b) && Sound(b, d) && AtHome(b)
    ensures AtHome(Commit(b, d).0)
    ensures WalletMoney(Commit(b, d).0, e) == WalletMoney(b, e)
  {
    if d.Write? {
      assert EntityOf(b, d.hold.userId) == Home(d.hold);
      CommitKeepsHomes(b, d);
      CommitKeepsBalance(b, d, e);
    }
  }

  lemma CommitKeepsBalance(b: Books, d: Decision, e: Entity)
    requires RowsOk(b) && Sound(b, d) && d.Write?
    requires EntityOf(b, d.hold.userId) == Home(d.hold)
    ensures WalletMoney(Commit(b, d).0, e) == WalletMoney(b, e)
  {
    SumPut(b.holds, d.id, d.hold, TakenFrom(e));
  }

  lemma CommitKeepsHomes(b: Books, d: Decision)
    requires RowsOk(b) && Sound(b, d) && AtHome(b) && d.Write?
    requires EntityOf(b, d.hold.userId) == Home(d.hold)
    ensures AtHome(Commit(b, d).0)
  {
  }

  /**
   A hold is paid back to the wallet its login spends from when it closes, not
   the one that was charged: the home wallet gets the remainder exactly when
   the login still spends from it.
   */
  lemma RefundReachesHome(b: Books, op: Op)
    requires Ok(b) && Verb(op) && Decide(b, op).Write? && Decide(b, op).amount > 0
    ensures var d := Decide(b, op);
            Known(Step(b, op).0.wallets, Home(d.hold)) == Known(b.wallets, Home(d.hold)) + d.amount
            <==> EntityOf(b, d.hold.userId) == Home(d.hold)
  {
    DecisionsAreSound(b, op);
  }

  /** User 1 of tenant 7, whose wallet holds 100. */
  function OneTenant(): Books
  {
    var wallets := map[TenantWallet(7) := 100, UserWallet(1) := 0];
    Books(map[1 := 7], wallets, map[3 := 100], map[], map[], map[], map[])
  }

  function HoldSixty(): Op
  {
    Create("h", HoldRequest(1, 3, "job", "gpu", 60, 1000), Some(Token(3, 1, false, 100)), false, 10)
  }

  /** The shortest run that shows it: a login leaves its tenant between hold and release. */
  lemma MovedLoginTakesTheRefund()
    ensures var b := Step(Step(Step(OneTenant(), HoldSixty()).0, Assign(1, 0)).0, Release("h", 20)).0;
            && Ok(OneTenant())
            && Known(b.wallets, TenantWallet(7)) == 40 && Known(b.wallets, UserWallet(1)) == 60
  {
    HeldSixty();
    ReleasedHome(Step(Step(OneTenant(), HoldSixty()).0, Assign(1, 0)).0);
  }

  lemma HeldSixty()
    ensures var b := Step(OneTenant(), HoldSixty()).0;
            && Known(b.wallets, TenantWallet(7)) == 40 && Known(b.wallets, UserWallet(1)) == 0
            && UserWallet(1) in b.wallets
            && "h" in b.holds && b.holds["h"].status == Active && b.holds["h"].userId == 1
            && b.holds["h"].quota == 60 && b.holds["h"].settled == 0 && b.holds["h"].expiresAt == 1000
  {
    var b := OneTenant();
    assert EntityOf(b, 1) == TenantWallet(7);
  }

  lemma ReleasedHome(b: Books)
    requires "h" in b.holds && b.holds["h"].status == Active && b.holds["h"].userId == 1
    requires b.holds["h"].quota == 60 && b.holds["h"].settled == 0 && b.holds["h"].expiresAt == 1000
    requires 1 in b.tenants && EntityOf(b, 1) == UserWallet(1) && UserWallet(1) in b.wallets
    ensures var b' := Step(b, Release("h", 20)).0;
            && Known(b'.wallets, UserWallet(1)) == Known(b.wallets, UserWallet(1)) + 60
            && Known(b'.wallets, TenantWallet(7)) == Known(b.wallets, TenantWallet(7))
  {
    assert Refusal(b, "h", 20).None?;
  }

  // ----- The sweeper -----

  predicate Lapsed(b: Books, id: string, now: int)
  {
    id in b.holds && b.holds[id].status == Active && b.holds[id].expiresAt <= now
  }

  function ExpiredAt(h: Hold, now: int): Hold
  {
    h.(status := Expired, released := h.quota - h.settled, updatedAt := now)
  }

  lemma ExpireStep(b: Books, id: string, now: int)
    requires id in b.holds ==> b.holds[id].userId in b.tenants
    ensures (Step(b, Expire(id, now)).1 == Swept(true)) == Lapsed(b, id, now)
    ensures Step(b, Expire(id, now)).0.holds ==
            if Lapsed(b, id, now) then b.holds[id := ExpiredAt(b.holds[id], now)] else b.holds
  {
    var d := ExpireTx(b, id, now);
    assert Step(b, Expire(id, now)) == Commit(b, d);
    if Lapsed(b, id, now) {
      assert d.Write? && d.hold == ExpiredAt(b.holds[id], now);
    }
  }

  ghost function LapsedAmong(b: Books, ids: seq<string>, now: int): set<string>
  {
    set id | id in ids && Lapsed(b, id, now)
  }

  /** `holds` with the lapsed ones among `ids` expired and every other row as it was. */
  ghost predicate SweptTo(b: Books, ids: seq<string>, now: int, holds: map<string, Hold>)
  {
    && holds.Keys == b.holds.Keys
    && forall id :: id in b.holds ==>
         holds[id] == if id in LapsedAmong(b, ids, now) then ExpiredAt(b.holds[id], now) else b.holds[id]
  }

  /**
   One sweep over the ids its query returned. Another node may have closed some
   of them since, so an id need not be lapsed any more when its turn comes: the
   sweep expires exactly those that still are, and counts only those.
   */
  method SweepExpired(b: Books, ids: seq<string>, now: int) returns (b': Books, closed: nat)
    requires Ok(b)
    requires forall i, j :: 0 <= i < j < |ids| ==> ids[i] != ids[j]
    ensures SweptUpTo(b, ids, now, b', closed)
  {
    b', closed := b, 0;
    assert LapsedAmong(b, ids[..0], now) == {};
    for i := 0 to |ids|
      invariant SweptUpTo(b, ids[..i], now, b', closed)
    {
      assert ids[..i + 1] == ids[..i] + [ids[i]];
      b', closed := SweepNext(b, ids[..i], ids[i], now, b', closed);
    }
    assert ids[..|ids|] == ids;
  }

  method SweepNext(ghost b: Books, ghost done: seq<string>, id: string, now: int, before: Books, count: nat)
    returns (b': Books, closed: nat)
    requires SweptUpTo(b, done, now, before, count) && id !in done
    ensures SweptUpTo(b, done + [id], now, b', closed)
  {
    SweepOne(b, done, id, now, before, count);
    var (next, reply) := Step(before, Expire(id, now));
    b', closed := next, if reply == Swept(true) then count + 1 else count;
  }

  /** The books are sound, no money moved in or out, and `closed` of the `ids` were lapsed and are expired. */
  ghost predicate SweptUpTo(b: Books, ids: seq<string>, now: int, b': Books, closed: nat)
  {
    && Ok(b') && Money(b') == Money(b)
    && SweptTo(b, ids, now, b'.holds)
    && closed == |LapsedAmong(b, ids, now)|
  }

  lemma SweepOne(b: Books, ids: seq<string>, id: string, now: int, b': Books, closed: nat)
    requires SweptUpTo(b, ids, now, b', closed) && id !in ids
    ensures var (next, reply) := Step(b', Expire(id, now));
            SweptUpTo(b, ids + [id], now, next, closed + if reply == Swept(true) then 1 else 0)
  {
    OneMoreSwept(b, ids, id, now, b'.holds);
    ExpireStep(b', id, now);
    StepKeepsOk(b', Expire(id, now));
    StepConserves(b', Expire(id, now), 0);
  }

  lemma OneMoreSwept(b: Books, ids: seq<string>, id: string, now: int, holds: map<string, Hold>)
    requires SweptTo(b, ids, now, holds) && id !in ids
    ensures Lapsed(b, id, now) ==>
              && id in holds && holds[id] == b.holds[id]
              && |LapsedAmong(b, ids + [id], now)| == |LapsedAmong(b, ids, now)| + 1
              && SweptTo(b, ids + [id], now, holds[id := ExpiredAt(b.holds[id], now)])
    ensures !Lapsed(b, id, now) ==>
              && (id in holds ==> holds[id] == b.holds[id])
              && LapsedAmong(b, ids + [id], now) == LapsedAmong(b, ids, now)
              && SweptTo(b, ids + [id], now, holds)
  {
    var before, after := LapsedAmong(b, ids, now), LapsedAmong(b, ids + [id], now);
    assert id !in before;
    if Lapsed(b, id, now) {
      assert after == before + {id};
    } else {
      assert after == before;
    }
  }
}
