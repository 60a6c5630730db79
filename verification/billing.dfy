/**
 Buying coin packs through Stripe. A payment intent names the buyer and the
 pack in its metadata; once Stripe reports it succeeded it is credited
 either by the buyer's explicit confirmation or by the webhook, whichever
 comes first. A COMPLETED transaction record for the intent is what marks
 it as credited.
 */
module Billing {
  import opened Wrappers
  import opened Collections
  import Paging
  import Packs

  /** A payment intent as Stripe returns it. Absent metadata keys are `None`. */
  datatype Intent = Intent(
    id: string,
    status: string,
    amount: real,
    currency: string,
    userId: Option<string>,
    packId: Option<string>)

  datatype Transaction = Transaction(
    userId: string,
    packId: string,
    paymentIntentId: string,
    amount: real,
    currency: string,
    status: string,
    createdAt: int)

  /** The payment tables and the balances; `coins` has an entry for every existing user. */
  datatype Ledger = Ledger(transactions: seq<Transaction>, coins: map<string, int>)

  const Completed := "COMPLETED"

  /** `findFirst({ where: { paymentIntentId, status: 'COMPLETED' } })` found something. */
  predicate Processed(l: Ledger, intentId: string) {
    exists i :: 0 <= i < |l.transactions| && l.transactions[i].paymentIntentId == intentId && l.transactions[i].status == Completed
  }

  /** Two transactions that do not both complete the same intent. */
  predicate NotBothCompleting(a: Transaction, b: Transaction) {
    !(a.status == Completed && b.status == Completed && a.paymentIntentId == b.paymentIntentId)
  }

  /** Every intent has at most one COMPLETED transaction: nothing is credited twice. */
  ghost predicate AtMostOnce(l: Ledger) {
    Pairwise(l.transactions, NotBothCompleting)
  }

  function PackIdOf(p: Packs.Pack): string { p.id }

  /** `pack.findUnique({ where: { id } })`. */
  function FindPack(packs: seq<Packs.Pack>, id: string): (r: Option<Packs.Pack>)
    ensures r.None? <==> forall i :: 0 <= i < |packs| ==> packs[i].id != id
    ensures r.Some? ==> r.value in packs && r.value.id == id
  {
    Find(packs, PackIdOf, id)
  }

  /** A JavaScript string read for truthiness. */
  predicate Truthy(s: Option<string>) {
    s.Some? && s.value != ""
  }

  /** What the buyer's client needs to pay, and what is written into the intent. */
  datatype IntentRequest = IntentRequest(amount: real, currency: string, userId: string, packId: string, coinsCount: int)

  /**
   `createPaymentIntent`: a missing pack is NotFound, a free pack cannot be
   bought, otherwise Stripe is asked for the pack's price, in cents of US dollars,
   with the buyer and the pack recorded in the metadata.
   */
  function CreatePaymentIntent(packs: seq<Packs.Pack>, userId: string, packId: string): (r: Result<IntentRequest>)
    ensures FindPack(packs, packId).None? ==> r == Failure(NotFound("Pack not found"))
    ensures FindPack(packs, packId).Some? && FindPack(packs, packId).value.isFree ==>
      r == Failure(BadRequest("Cannot create payment for free pack"))
    ensures r.Success? <==> FindPack(packs, packId).Some? && !FindPack(packs, packId).value.isFree
    ensures r.Success? ==>
      var p := FindPack(packs, packId).value;
      r.value == IntentRequest(p.price, "usd", userId, packId, p.coinsCount)
  {
    match FindPack(packs, packId)
    case None => Failure(NotFound("Pack not found"))
    case Some(p) =>
      if p.isFree then Failure(BadRequest("Cannot create payment for free pack"))
      else Success(IntentRequest(p.price, "usd", userId, p.id, p.coinsCount))
  }

  /** What reading a missing user's coins raises inside the database transaction. */
  const NullCoins := "Cannot read properties of null (reading 'coins')"

  /** What a pack lookup without an id raises. */
  const MissingPackId := "Argument `id` is missing."

  /**
   The database transaction both crediting paths run: a COMPLETED record
   for the intent, then the user's balance raised by the pack's coins. A
   missing user aborts it, and it rolls back.
   */
  function Credit(l: Ledger, userId: string, p: Packs.Pack, intent: Intent, now: int): (r: Result<Ledger>)
    ensures r.Failure? <==> userId !in l.coins
    ensures r.Failure? ==> r.error == Plain(NullCoins)
    ensures r.Success? ==>
      && r.value.transactions == l.transactions + [Transaction(userId, p.id, intent.id, intent.amount, intent.currency, Completed, now)]
      && r.value.coins.Keys == l.coins.Keys
      && r.value.coins[userId] == l.coins[userId] + p.coinsCount
      && (forall u :: u in l.coins && u != userId ==> r.value.coins[u] == l.coins[u])
  {
    if userId !in l.coins then Failure(Plain(NullCoins))
    else
      var t := Transaction(userId, p.id, intent.id, intent.amount, intent.currency, Completed, now);
      Success(Ledger(l.transactions + [t], l.coins[userId := l.coins[userId] + p.coinsCount]))
  }

  datatype Receipt = Receipt(packId: string, coinsAdded: int, totalCoins: int)

  /**
   `confirmPayment`: the intent must exist, belong to the caller, have
   succeeded and not have been processed, and its pack must exist; then the
   caller is credited. Each failure leaves the ledger as it was.
   */
  function ConfirmPayment(l: Ledger, packs: seq<Packs.Pack>, userId: string, intent: Option<Intent>, now: int)
    : (r: Result<(Ledger, Receipt)>)
    ensures intent.None? ==> r == Failure(NotFound("Payment intent not found"))
    ensures intent.Some? && intent.value.userId != Some(userId) ==>
      r == Failure(BadRequest("Payment intent does not belong to user"))
    ensures intent.Some? && intent.value.userId == Some(userId) && intent.value.status != "succeeded" ==>
      r == Failure(BadRequest("Payment not successful. Status: " + intent.value.status))
    ensures intent.Some? && intent.value.userId == Some(userId) && intent.value.status == "succeeded"
            && Processed(l, intent.value.id) ==>
      r == Failure(BadRequest("Payment already processed"))
    ensures r.Success? ==>
      var (l', receipt) := r.value;
      && intent.Some? && intent.value.status == "succeeded" && !Processed(l, intent.value.id)
      && intent.value.packId.Some? && FindPack(packs, intent.value.packId.value).Some?
      && var p := FindPack(packs, intent.value.packId.value).value;
      && Success(l') == Credit(l, userId, p, intent.value, now)
      && receipt == Receipt(p.id, p.coinsCount, l'.coins[userId])
      && receipt.totalCoins == l.coins[userId] + receipt.coinsAdded
    ensures intent.Some? && intent.value.userId == Some(userId) && intent.value.status == "succeeded"
            && !Processed(l, intent.value.id) ==>
      && (intent.value.packId.None? ==> r == Failure(Plain(MissingPackId)))
      && (intent.value.packId.Some? && FindPack(packs, intent.value.packId.value).None? ==>
            r == Failure(NotFound("Pack not found")))
      && (intent.value.packId.Some? && FindPack(packs, intent.value.packId.value).Some? ==>
            && (userId !in l.coins ==> r == Failure(Plain(NullCoins)))
            && (userId in l.coins ==> r.Success?))
  {
    if intent.None? then Failure(NotFound("Payment intent not found"))
    else
      var pi := intent.value;
      if pi.userId != Some(userId) then Failure(BadRequest("Payment intent does not belong to user"))
      else if pi.status != "succeeded" then Failure(BadRequest("Payment not successful. Status: " + pi.status))
      else if Processed(l, pi.id) then Failure(BadRequest("Payment already processed"))
      else if pi.packId.None? then Failure(Plain(MissingPackId))
      else match FindPack(packs, pi.packId.value)
        case None => Failure(NotFound("Pack not found"))
        case Some(p) =>
          var l' :- Credit(l, userId, p, pi, now);
          Success((l', Receipt(p.id, p.coinsCount, l'.coins[userId])))
  }

  /**
   `handlePaymentIntentSucceeded`: does nothing when the metadata lacks the
   user or the pack, when the intent was already processed, or when the
   pack is gone; otherwise credits the user named in the metadata. Its
   errors are logged, never raised, so a failed credit changes nothing.
   */
  function OnSucceeded(l: Ledger, packs: seq<Packs.Pack>, intent: Intent, now: int): (l': Ledger)
    ensures !Truthy(intent.userId) || !Truthy(intent.packId) ==> l' == l
    ensures Processed(l, intent.id) ==> l' == l
    ensures l' != l ==>
      && Truthy(intent.userId) && Truthy(intent.packId)
      && FindPack(packs, intent.packId.value).Some?
      && Success(l') == Credit(l, intent.userId.value, FindPack(packs, intent.packId.value).value, intent, now)
    ensures Truthy(intent.userId) && Truthy(intent.packId) && !Processed(l, intent.id)
            && FindPack(packs, intent.packId.value).Some? && intent.userId.value in l.coins ==>
      && l' != l
      && Success(l') == Credit(l, intent.userId.value, FindPack(packs, intent.packId.value).value, intent, now)
  {
    if !Truthy(intent.userId) || !Truthy(intent.packId) then l
    else if Processed(l, intent.id) then l
    else match FindPack(packs, intent.packId.value)
      case None => l
      case Some(p) =>
        match Credit(l, intent.userId.value, p, intent, now)
        case Success(l') => l'
        case Failure(_) => l
  }

  datatype Event = Event(eventType: string, intent: Intent)

  /**
   `handleWebhook`: with the signing secret configured and the signature
   accepted, a succeeded event runs the crediting handler, a failed one only
   notifies, and any other type is acknowledged. Configuration and
   signature errors become BadRequest 'Webhook error: …'. `signatureError`
   is the message of the signature check when it rejects the payload.
   */
  function HandleWebhook(l: Ledger, packs: seq<Packs.Pack>, secretConfigured: bool, signatureError: Option<string>,
                         event: Event, now: int): (r: Result<Ledger>)
    ensures !secretConfigured ==> r == Failure(BadRequest("Webhook error: STRIPE_WEBHOOK_SECRET is not configured"))
    ensures secretConfigured && signatureError.Some? ==> r == Failure(BadRequest("Webhook error: " + signatureError.value))
    ensures r.Failure? ==> r.error.BadRequest?
    ensures r.Success? && event.eventType != "payment_intent.succeeded" ==> r.value == l
    ensures r.Success? && event.eventType == "payment_intent.succeeded" ==> r.value == OnSucceeded(l, packs, event.intent, now)
    ensures r.Success? <==> secretConfigured && signatureError.None?
  {
    if !secretConfigured then Failure(BadRequest("Webhook error: STRIPE_WEBHOOK_SECRET is not configured"))
    else if signatureError.Some? then Failure(BadRequest("Webhook error: " + signatureError.value))
    else if event.eventType == "payment_intent.succeeded" then Success(OnSucceeded(l, packs, event.intent, now))
    else Success(l)
  }

  // ----- at-most-once crediting -----

  /** Crediting an intent that was not yet processed keeps every intent completed at most once. */
  lemma CreditKeepsAtMostOnce(l: Ledger, userId: string, p: Packs.Pack, intent: Intent, now: int)
    requires AtMostOnce(l) && !Processed(l, intent.id)
    requires Credit(l, userId, p, intent, now).Success?
    ensures AtMostOnce(Credit(l, userId, p, intent, now).value)
    ensures Processed(Credit(l, userId, p, intent, now).value, intent.id)
  {
    var ts := Credit(l, userId, p, intent, now).value.transactions;
    var n := |l.transactions|;
    forall i, j | 0 <= i < j < |ts| ensures NotBothCompleting(ts[i], ts[j]) {
      if j == n {
        assert ts[i] == l.transactions[i];
      } else {
        assert ts[i] == l.transactions[i] && ts[j] == l.transactions[j];
      }
    }
    assert ts[n].paymentIntentId == intent.id;
  }

  /** A confirmation keeps every intent completed at most once. */
  lemma ConfirmKeepsAtMostOnce(l: Ledger, packs: seq<Packs.Pack>, userId: string, intent: Option<Intent>, now: int)
    requires AtMostOnce(l)
    requires ConfirmPayment(l, packs, userId, intent, now).Success?
    ensures AtMostOnce(ConfirmPayment(l, packs, userId, intent, now).value.0)
  {
    var p := FindPack(packs, intent.value.packId.value).value;
    CreditKeepsAtMostOnce(l, userId, p, intent.value, now);
  }

  /** A webhook delivery keeps every intent completed at most once. */
  lemma WebhookKeepsAtMostOnce(l: Ledger, packs: seq<Packs.Pack>, secretConfigured: bool, signatureError: Option<string>,
                               event: Event, now: int)
    requires AtMostOnce(l)
    requires HandleWebhook(l, packs, secretConfigured, signatureError, event, now).Success?
    ensures AtMostOnce(HandleWebhook(l, packs, secretConfigured, signatureError, event, now).value)
  {
    var l' := HandleWebhook(l, packs, secretConfigured, signatureError, event, now).value;
    if l' != l {
      var pi := event.intent;
      CreditKeepsAtMostOnce(l, pi.userId.value, FindPack(packs, pi.packId.value).value, pi, now);
    }
  }

  /**
   Once an intent is credited, by either path, neither path credits it
   again: the confirmation is refused and the webhook changes nothing.
   */
  lemma NoSecondCredit(l: Ledger, packs: seq<Packs.Pack>, userId: string, intent: Intent, event: Event, now: int)
    requires Processed(l, intent.id) && event.intent.id == intent.id
    ensures ConfirmPayment(l, packs, userId, Some(intent), now).Failure?
    ensures forall sig :: HandleWebhook(l, packs, true, sig, event, now).Success? ==>
              HandleWebhook(l, packs, true, sig, event, now).value == l
  {
  }

  /** A successful confirmation marks the intent, so a later webhook for it is a no-op. */
  lemma ConfirmThenWebhook(l: Ledger, packs: seq<Packs.Pack>, userId: string, intent: Intent, now: int, later: int)
    requires ConfirmPayment(l, packs, userId, Some(intent), now).Success?
    ensures
      var l' := ConfirmPayment(l, packs, userId, Some(intent), now).value.0;
      && l'.coins[userId] == l.coins[userId] + FindPack(packs, intent.packId.value).value.coinsCount
      && HandleWebhook(l', packs, true, None, Event("payment_intent.succeeded", intent), later) == Success(l')
  {
    var l' := ConfirmPayment(l, packs, userId, Some(intent), now).value.0;
    assert l'.transactions[|l.transactions|].paymentIntentId == intent.id;
  }

  // ----- payment history -----

  /** The filter `where: { userId }`. */
  function OwnedBy(userId: string): Transaction -> bool {
    (t: Transaction) => t.userId == userId
  }

  datatype History = History(transactions: seq<Transaction>, page: int, pages: nat, limit: int, total: nat)

  /**
   `getPaymentHistory`: the caller's transactions, newest first (the ledger
   holds them in the order they were recorded), `limit` of them after
   skipping `(page - 1) * limit`, with `pages = ceil(total / limit)`.
   */
  function PaymentHistory(l: Ledger, userId: string, page: int, limit: int): (r: History)
    requires page >= 1 && limit >= 1
    ensures r.page == page && r.limit == limit
    ensures r.total == Count(l.transactions, OwnedBy(userId))
    ensures r.transactions == Paging.Window(Reverse(Filter(l.transactions, OwnedBy(userId))), Paging.Skip(page, limit), limit)
    ensures |r.transactions| <= limit
    ensures forall i :: 0 <= i < |r.transactions| ==> r.transactions[i] in l.transactions && r.transactions[i].userId == userId
    ensures r.pages * limit >= r.total && (r.pages > 0 ==> (r.pages - 1) * limit < r.total)
  {
    var mine := Filter(l.transactions, OwnedBy(userId));
    FilterLength(l.transactions, OwnedBy(userId));
    var newest := Reverse(mine);
    var rows := Paging.Window(newest, Paging.Skip(page, limit), limit);
    OwnRowsOnly(l.transactions, userId, rows, Paging.Skip(page, limit), limit);
    History(rows, page, Paging.CeilDiv(|mine|, limit), limit, |mine|)
  }

  /** Every row of a window onto a user's newest-first transactions is one of that user's. */
  lemma OwnRowsOnly(transactions: seq<Transaction>, userId: string, rows: seq<Transaction>, skip: nat, limit: nat)
    requires rows == Paging.Window(Reverse(Filter(transactions, OwnedBy(userId))), skip, limit)
    ensures forall i :: 0 <= i < |rows| ==> rows[i] in transactions && rows[i].userId == userId
  {
    var mine := Filter(transactions, OwnedBy(userId));
    forall i | 0 <= i < |rows| ensures rows[i] in transactions && rows[i].userId == userId {
      assert rows[i] in Reverse(mine);
      assert rows[i] in mine;
      assert OwnedBy(userId)(rows[i]);
    }
  }

  /**
   Newest first: the transaction recorded last for a user opens the first
   page of that user's history, ahead of every earlier one.
   */
  lemma {:induction false} LatestOpensHistory(l: Ledger, t: Transaction, limit: int)
    requires limit >= 1
    ensures
      var h := PaymentHistory(l.(transactions := l.transactions + [t]), t.userId, 1, limit);
      && h.transactions != []
      && h.transactions[0] == t
      && h.transactions[1..] == Paging.Window(Reverse(Filter(l.transactions, OwnedBy(t.userId))), 0, limit - 1)
  {
    var p := OwnedBy(t.userId);
    var l' := l.(transactions := l.transactions + [t]);
    var mine := Filter(l.transactions, p);
    var rest := Paging.Window(Reverse(mine), 0, limit - 1);
    assert Filter([t], p) == [t];
    calc {
      PaymentHistory(l', t.userId, 1, limit).transactions;
      Paging.Window(Reverse(Filter(l.transactions + [t], p)), 0, limit);
      { FilterAppend(l.transactions, [t], p); }
      Paging.Window(Reverse(mine + [t]), 0, limit);
      { ReverseAppend(mine, t); }
      Paging.Window([t] + Reverse(mine), 0, limit);
      { Paging.WindowCons(t, Reverse(mine), limit - 1); }
      [t] + rest;
    }
    assert ([t] + rest)[1..] == rest;
  }
}
