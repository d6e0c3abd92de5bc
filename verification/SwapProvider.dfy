/** The scripted swap provider (`FakeLscProviderCore.cs`): orders driven by scripts, forced
    states, polls and refund claims, and the wire form a poll answers with. Orders are
    values in the map; no one else holds a reference to them. */
module SwapProvider {
  import opened Text

  /** A state name: one of the eleven scriptable ones, or any other string. */
  datatype SwapState =
    | AwaitingDeposit | Confirming | Exchanging | PayingInvoice | Completed | Expired
    | RefundRequired | RefundPending | Refunded | Attention | Failed
    | OtherState(name: string)

  datatype RefundReason =
    | Underpaid | Overpaid | LateDeposit | UnderpaidAndLate | OverpaidAndLate
    | OtherReason(name: string)

  datatype AttentionReason =
    | ReportedEmergency | StatusUnrecognized
    | OtherAttention(name: string)

  predicate Scriptable(s: SwapState) { !s.OtherState? }

  predicate AllScriptable(steps: seq<SwapState>) {
    forall i :: 0 <= i < |steps| ==> Scriptable(steps[i])
  }

  datatype Order = Order(asset: string, bolt11: string, state: SwapState, steps: seq<SwapState>, next: nat,
                         attention: Option<AttentionReason>, refund: Option<RefundReason>,
                         refundAddress: Option<string>, payerInvoked: bool)

  datatype Pending = Pending(steps: seq<SwapState>, attention: Option<AttentionReason>, refund: Option<RefundReason>)

  /** The pay-in assets of the rate table; no order id has this form. */
  predicate IsAsset(selector: string) {
    selector in ["SOL_SOL", "USDT_TRON", "USDT_SOL", "USDC_SOL", "ETH_ETH", "USDT_ETH", "USDC_ETH"]
  }

  /** The provider, the payer calls it made, and every state each order was moved to. */
  datatype Core = Core(orders: map<string, Order>, pending: map<string, Pending>, createError: Option<string>,
                       payments: seq<string>, entered: set<(string, SwapState)>)

  predicate Matches(selector: string, id: string, order: Order) {
    if IsAsset(selector) then order.asset == selector else id == selector
  }

  // ----- what happens to one order -----------------------------------------------------

  predicate IsRefundState(s: SwapState) { s.RefundRequired? || s.RefundPending? || s.Refunded? }

  /** The order's own fields after `Apply`. */
  function Moved(o: Order, s: SwapState): Order {
    o.(state := s,
       refund := if IsRefundState(s) && o.refund.None? then Some(Underpaid) else o.refund,
       attention := if s.Attention? && o.attention.None? then Some(ReportedEmergency) else o.attention,
       payerInvoked := o.payerInvoked || s.Completed?)
  }

  /** `Apply` on a stored order: the payer is called on the first entry into `completed`. */
  function Apply(c: Core, id: string, o: Order, s: SwapState): Core {
    c.(orders := c.orders[id := Moved(o, s)],
       payments := if s.Completed? && !o.payerInvoked then c.payments + [id] else c.payments,
       entered := c.entered + {(id, s)})
  }

  function Scripted(o: Order, steps: seq<SwapState>): Order {
    o.(steps := steps, next := 0, attention := None)
  }

  function Forced(o: Order, s: SwapState, attention: Option<AttentionReason>, refund: Option<RefundReason>): Order {
    Moved(o.(steps := [], next := 0, attention := attention, refund := if refund.Some? then refund else o.refund), s)
  }

  function NewOrder(asset: string, bolt11: string, pending: Option<Pending>): Order {
    match pending
    case None => Order(asset, bolt11, AwaitingDeposit, [], 0, None, None, None, false)
    case Some(p) => Order(asset, bolt11, AwaitingDeposit, p.steps, 0, p.attention, p.refund, None, false)
  }

  function Matching(orders: map<string, Order>, selector: string): (ids: set<string>)
    ensures ids <= orders.Keys
  {
    set id | id in orders && Matches(selector, id, orders[id])
  }

  function Entries(ids: set<string>, s: SwapState): set<(string, SwapState)> {
    set id | id in ids :: (id, s)
  }

  function ScriptedOrders(orders: map<string, Order>, ids: set<string>, steps: seq<SwapState>): map<string, Order> {
    map id | id in orders :: if id in ids then Scripted(orders[id], steps) else orders[id]
  }

  function ForcedOrders(orders: map<string, Order>, ids: set<string>, s: SwapState,
                        attention: Option<AttentionReason>, refund: Option<RefundReason>): map<string, Order>
  {
    map id | id in orders :: if id in ids then Forced(orders[id], s, attention, refund) else orders[id]
  }

  /** The provider after the orders in `ids` have been forced. */
  function ForcedCore(c: Core, ids: set<string>, s: SwapState,
                      attention: Option<AttentionReason>, refund: Option<RefundReason>): Core
  {
    c.(orders := ForcedOrders(c.orders, ids, s, attention, refund), entered := c.entered + Entries(ids, s))
  }

  // ----- operations ------------------------------------------------------------------------

  function Script(c: Core, selector: string, steps: seq<SwapState>): Core {
    if steps == [] || !AllScriptable(steps) then c
    else
      c.(orders := ScriptedOrders(c.orders, Matching(c.orders, selector), steps),
         pending := if IsAsset(selector) then c.pending[selector := Pending(steps, None, None)] else c.pending)
  }

  function Force(c: Core, selector: string, s: SwapState, attention: Option<AttentionReason>, refund: Option<RefundReason>): Core {
    ForcedCore(c, Matching(c.orders, selector), s, attention, refund)
      .(pending := if IsAsset(selector) then c.pending[selector := Pending([s], attention, refund)] else c.pending)
  }

  function ForceRefund(c: Core, selector: string, reason: RefundReason): Core {
    if reason.OtherReason? then c else Force(c, selector, RefundRequired, None, Some(reason))
  }

  function ForceAttention(c: Core, selector: string, reason: AttentionReason): Core {
    if reason.OtherAttention? then c else Force(c, selector, Attention, Some(reason), None)
  }

  /** `string.IsNullOrWhiteSpace` */
  predicate IsBlank(s: string) { forall i :: 0 <= i < |s| ==> IsWhite(s[i] as int) }

  predicate IsWhite(n: int) {
    9 <= n <= 13 || n == 0x20 || n == 0x85 || n == 0xA0 || n == 0x1680 || 0x2000 <= n <= 0x200A
    || n == 0x2028 || n == 0x2029 || n == 0x202F || n == 0x205F || n == 0x3000
  }

  /** `trade` is false when the request does not describe a supported trade. */
  function Create(c: Core, id: string, asset: string, bolt11: string, trade: bool): Core {
    if c.createError.Some? then c.(createError := None)
    else if !trade || IsBlank(bolt11) then c
    else
      var pending := if asset in c.pending then Some(c.pending[asset]) else None;
      c.(orders := c.orders[id := NewOrder(asset, bolt11, pending)], pending := c.pending - {asset})
  }

  function Poll(c: Core, id: string): Core {
    if id !in c.orders then c
    else
      var o := c.orders[id];
      if o.next < |o.steps| then Apply(c, id, o.(next := o.next + 1), o.steps[o.next]) else c
  }

  /** A refund claim; `refundChoice` says whether the request chose REFUND. */
  function Claim(c: Core, id: string, refundChoice: bool, address: string): Core {
    if id !in c.orders || !refundChoice || IsBlank(address) then c
    else
      var o := c.orders[id];
      Apply(c, id, o.(refundAddress := Some(address), refund := if o.refund.None? then Some(Underpaid) else o.refund), RefundPending)
  }

  datatype Op =
    | ScriptOp(selector: string, steps: seq<SwapState>)
    | RefundOp(selector: string, reason: RefundReason)
    | AttentionOp(selector: string, attention: AttentionReason)
    | CreateErrorOp(message: string)
    | CreateOp(id: string, asset: string, bolt11: string, trade: bool)
    | PollOp(id: string)
    | ClaimOp(id: string, refundChoice: bool, address: string)

  function Step(c: Core, op: Op): Core {
    match op
    case ScriptOp(selector, steps) => Script(c, selector, steps)
    case RefundOp(selector, reason) => ForceRefund(c, selector, reason)
    case AttentionOp(selector, reason) => ForceAttention(c, selector, reason)
    case CreateErrorOp(message) => c.(createError := Some(message))
    case CreateOp(id, asset, bolt11, trade) => Create(c, id, asset, bolt11, trade)
    case PollOp(id) => Poll(c, id)
    case ClaimOp(id, choice, address) => Claim(c, id, choice, address)
  }

  /** New orders get an id never used before, and their asset is one of the table's. */
  predicate Allowed(c: Core, op: Op) {
    op.CreateOp? ==> op.id !in c.orders && !IsAsset(op.id) && IsAsset(op.asset)
  }

  function Run(c: Core, ops: seq<Op>): Core
    decreases |ops|
  {
    if ops == [] then c else Step(Run(c, ops[..|ops| - 1]), ops[|ops| - 1])
  }

  predicate AllowedRun(c: Core, ops: seq<Op>)
    decreases |ops|
  {
    ops == [] || (AllowedRun(c, ops[..|ops| - 1]) && Allowed(Run(c, ops[..|ops| - 1]), ops[|ops| - 1]))
  }

  const EMPTY: Core := Core(map[], map[], None, [], {})

  // ----- the wire form -----------------------------------------------------------------------

  datatype Status = NEW | PENDING | EXCHANGE | WITHDRAW | DONE | EXPIRED | EMERGENCY | SOMETHING_NEW | FAILED
  datatype Choice = ChooseNone | ChooseRefund | ChooseExchange
  datatype EmergencyStatus = LESS | MORE | EXPIRED

  datatype Wire = Wire(status: Status, choice: Choice, emergency: seq<EmergencyStatus>,
                       depositTx: bool, payoutTx: bool, back: bool, refundTx: bool)

  datatype Rendering = Rendered(wire: Wire) | UnrenderableState | MissingReason

  function EmergencyStatuses(reason: RefundReason): Option<seq<EmergencyStatus>> {
    match reason
    case Underpaid => Some([LESS])
    case Overpaid => Some([MORE])
    case LateDeposit => Some([EmergencyStatus.EXPIRED])
    case UnderpaidAndLate => Some([LESS, EmergencyStatus.EXPIRED])
    case OverpaidAndLate => Some([MORE, EmergencyStatus.EXPIRED])
    case OtherReason(_) => None
  }

  function StatusOf(o: Order): Option<(Status, Choice)> {
    match o.state
    case AwaitingDeposit => Some((NEW, ChooseNone))
    case Confirming => Some((PENDING, ChooseNone))
    case Exchanging => Some((EXCHANGE, ChooseNone))
    case PayingInvoice => Some((WITHDRAW, ChooseNone))
    case Completed => Some((DONE, ChooseNone))
    case Expired => Some((Status.EXPIRED, ChooseNone))
    case RefundRequired => Some((EMERGENCY, ChooseNone))
    case RefundPending => Some((EMERGENCY, ChooseRefund))
    case Refunded => Some((EMERGENCY, ChooseRefund))
    case Attention => if o.attention == Some(StatusUnrecognized) then Some((SOMETHING_NEW, ChooseNone)) else Some((EMERGENCY, ChooseExchange))
    case Failed => Some((FAILED, ChooseNone))
    case OtherState(_) => None
  }

  function Render(o: Order): Rendering {
    match StatusOf(o)
    case None => UnrenderableState
    case Some((status, choice)) =>
      var reason := if o.refund.Some? then o.refund.value else Underpaid;
      var statuses := if status == EMERGENCY then EmergencyStatuses(reason) else Some([]);
      if statuses.None? then MissingReason
      else Rendered(Wire(status, choice, statuses.value,
                         !o.state.AwaitingDeposit? && !o.state.Expired?, o.state.Completed?,
                         o.refundAddress.Some? || o.state.Refunded?, o.state.Refunded?))
  }

  /** What a client can tell from a rendered order. */
  datatype Reading = Reading(state: SwapState, refund: Option<RefundReason>, attention: Option<AttentionReason>)

  function ReasonFor(statuses: seq<EmergencyStatus>): Option<RefundReason> {
    if statuses == [LESS] then Some(Underpaid)
    else if statuses == [MORE] then Some(Overpaid)
    else if statuses == [EmergencyStatus.EXPIRED] then Some(LateDeposit)
    else if statuses == [LESS, EmergencyStatus.EXPIRED] then Some(UnderpaidAndLate)
    else if statuses == [MORE, EmergencyStatus.EXPIRED] then Some(OverpaidAndLate)
    else None
  }

  /** Reads status, choice, emergency statuses and whether a refund transaction is present. */
  function Decode(status: Status, choice: Choice, emergency: seq<EmergencyStatus>, refundTx: bool): Reading {
    match status
    case NEW => Reading(AwaitingDeposit, None, None)
    case PENDING => Reading(Confirming, None, None)
    case EXCHANGE => Reading(Exchanging, None, None)
    case WITHDRAW => Reading(PayingInvoice, None, None)
    case DONE => Reading(Completed, None, None)
    case EXPIRED => Reading(Expired, None, None)
    case FAILED => Reading(Failed, None, None)
    case SOMETHING_NEW => Reading(Attention, None, Some(StatusUnrecognized))
    case EMERGENCY =>
      match choice
      case ChooseNone => Reading(RefundRequired, ReasonFor(emergency), None)
      case ChooseRefund => Reading(if refundTx then Refunded else RefundPending, ReasonFor(emergency), None)
      case ChooseExchange => Reading(Attention, None, Some(ReportedEmergency))
  }

  /** What the order itself says about those three. */
  function Facts(o: Order): Reading {
    Reading(o.state, if IsRefundState(o.state) then o.refund else None, if o.state.Attention? then o.attention else None)
  }

  predicate RendersFaithfully(o: Order) {
    && Render(o).Rendered?
    && var w := Render(o).wire; Decode(w.status, w.choice, w.emergency, w.refundTx) == Facts(o)
  }

  // ----- what every operation keeps ---------------------------------------------------------

  /** An order whose attention reason a script cleared still has a step to take. */
  predicate OrderInv(o: Order) {
    && Scriptable(o.state) && AllScriptable(o.steps) && o.next <= |o.steps|
    && (o.refund.Some? ==> !o.refund.value.OtherReason?)
    && (o.attention.Some? ==> !o.attention.value.OtherAttention?)
    && (IsRefundState(o.state) ==> o.refund.Some?)
    && (o.state.Attention? && o.attention.None? ==> o.next < |o.steps|)
  }

  predicate PendingInv(p: Pending) {
    && p.steps != [] && AllScriptable(p.steps)
    && (p.refund.Some? ==> !p.refund.value.OtherReason?)
    && (p.attention.Some? ==> !p.attention.value.OtherAttention?)
  }

  predicate Distinct(s: seq<string>) {
    forall i, j :: 0 <= i < j < |s| ==> s[i] != s[j]
  }

  /** The payer was called for exactly the orders that ever entered `completed`. */
  ghost predicate PaidInv(c: Core) {
    && Distinct(c.payments)
    && (forall id :: id in c.payments <==> (id, Completed) in c.entered)
    && (forall id :: id in c.payments <==> id in c.orders && c.orders[id].payerInvoked)
    && (forall id <- c.orders :: c.orders[id].state.Completed? ==> c.orders[id].payerInvoked)
  }

  ghost predicate Inv(c: Core) {
    && (forall id <- c.orders :: OrderInv(c.orders[id]))
    && (forall asset <- c.pending :: PendingInv(c.pending[asset]))
    && PaidInv(c)
  }

  lemma MovedInv(o: Order, s: SwapState)
    requires Scriptable(s) && AllScriptable(o.steps) && o.next <= |o.steps|
    requires o.refund.Some? ==> !o.refund.value.OtherReason?
    requires o.attention.Some? ==> !o.attention.value.OtherAttention?
    ensures OrderInv(Moved(o, s)) && (s.Attention? ==> Moved(o, s).attention.Some?)
  {
  }

  lemma ApplyInv(c: Core, id: string, o: Order, s: SwapState)
    requires Inv(c) && id in c.orders && o.payerInvoked == c.orders[id].payerInvoked && OrderInv(Moved(o, s))
    ensures Inv(Apply(c, id, o, s))
  {
    hide OrderInv, PendingInv;
    var c' := Apply(c, id, o, s);
    assert PaidInv(c');
  }

  /** The payer's record is kept by anything that calls no payer and completes no order. */
  lemma PaidFrame(c: Core, c': Core)
    requires PaidInv(c) && c'.payments == c.payments && c.orders.Keys <= c'.orders.Keys
    requires forall id :: (id, Completed) in c'.entered <==> (id, Completed) in c.entered
    requires forall id <- c.orders :: c'.orders[id].payerInvoked == c.orders[id].payerInvoked
    requires forall id <- c'.orders :: id !in c.orders ==> !c'.orders[id].payerInvoked
    requires forall id <- c'.orders :: c'.orders[id].state.Completed? ==> id in c.orders && c.orders[id].state.Completed?
    ensures PaidInv(c')
  {
  }

  lemma ScriptInv(c: Core, selector: string, steps: seq<SwapState>)
    requires Inv(c)
    ensures Inv(Script(c, selector, steps))
  {
    hide IsAsset, PaidInv, Matches;
    var c' := Script(c, selector, steps);
    assert forall id <- c'.orders :: OrderInv(c'.orders[id]);
    PaidFrame(c, c');
  }

  lemma ForcedInv(o: Order, s: SwapState, attention: Option<AttentionReason>, refund: Option<RefundReason>)
    requires OrderInv(o) && Scriptable(s) && !s.Completed?
    requires refund.Some? ==> !refund.value.OtherReason?
    requires attention.Some? ==> !attention.value.OtherAttention?
    ensures var o' := Forced(o, s, attention, refund);
            OrderInv(o') && o'.payerInvoked == o.payerInvoked && o'.state == s
  {
  }

  lemma ForceInv(c: Core, selector: string, s: SwapState, attention: Option<AttentionReason>, refund: Option<RefundReason>)
    requires Inv(c) && Scriptable(s) && !s.Completed?
    requires refund.Some? ==> !refund.value.OtherReason?
    requires attention.Some? ==> !attention.value.OtherAttention?
    ensures Inv(Force(c, selector, s, attention, refund))
  {
    hide IsAsset, PaidInv, Matches, Forced, OrderInv;
    var c' := Force(c, selector, s, attention, refund);
    forall id | id in c.orders
      ensures OrderInv(c'.orders[id]) && c'.orders[id].payerInvoked == c.orders[id].payerInvoked
      ensures c'.orders[id].state.Completed? ==> c.orders[id].state.Completed?
    {
      ForcedInv(c.orders[id], s, attention, refund);
    }
    PaidFrame(c, c');
  }

  lemma CreateInv(c: Core, id: string, asset: string, bolt11: string, trade: bool)
    requires Inv(c) && id !in c.orders
    ensures Inv(Create(c, id, asset, bolt11, trade))
  {
    hide IsAsset, PaidInv, IsBlank;
    PaidFrame(c, Create(c, id, asset, bolt11, trade));
  }

  lemma PollInv(c: Core, id: string)
    requires Inv(c)
    ensures Inv(Poll(c, id))
  {
    hide PaidInv;
    if id in c.orders && c.orders[id].next < |c.orders[id].steps| {
      var o := c.orders[id];
      MovedInv(o.(next := o.next + 1), o.steps[o.next]);
      ApplyInv(c, id, o.(next := o.next + 1), o.steps[o.next]);
    }
  }

  lemma ClaimInv(c: Core, id: string, choice: bool, address: string)
    requires Inv(c)
    ensures Inv(Claim(c, id, choice, address))
  {
    hide PaidInv, IsBlank;
    if id in c.orders && choice && !IsBlank(address) {
      var o := c.orders[id];
      var o' := o.(refundAddress := Some(address), refund := if o.refund.None? then Some(Underpaid) else o.refund);
      MovedInv(o', RefundPending);
      ApplyInv(c, id, o', RefundPending);
    }
  }

  lemma StepInv(c: Core, op: Op)
    requires Inv(c) && Allowed(c, op)
    ensures Inv(Step(c, op))
  {
    hide IsAsset, Script, Force, Create, Poll, Claim, PaidInv;
    match op
    case ScriptOp(selector, steps) => ScriptInv(c, selector, steps);
    case RefundOp(selector, reason) =>
      if !reason.OtherReason? { ForceInv(c, selector, RefundRequired, None, Some(reason)); }
    case AttentionOp(selector, reason) =>
      if !reason.OtherAttention? { ForceInv(c, selector, Attention, Some(reason), None); }
    case CreateErrorOp(message) => PaidFrame(c, Step(c, op));
    case CreateOp(id, asset, bolt11, trade) => CreateInv(c, id, asset, bolt11, trade);
    case PollOp(id) => PollInv(c, id);
    case ClaimOp(id, choice, address) => ClaimInv(c, id, choice, address);
  }

  lemma {:induction false} RunInv(ops: seq<Op>)
    requires AllowedRun(EMPTY, ops)
    ensures Inv(Run(EMPTY, ops))
    decreases |ops|
  {
    if ops != [] {
      RunInv(ops[..|ops| - 1]);
      StepInv(Run(EMPTY, ops[..|ops| - 1]), ops[|ops| - 1]);
    }
  }

  // ----- rendering loses nothing ---------------------------------------------------------------

  lemma FaithfulIff(o: Order)
    requires OrderInv(o)
    ensures Render(o).Rendered?
    ensures RendersFaithfully(o) <==> !(o.state.Attention? && o.attention.None?)
  {
  }

  /** Every stored order renders, after any run; the decoder recovers its state and reasons
      exactly when it does not wait for the next poll to give its attention a reason. */
  lemma {:induction false} EveryOrderRenders(ops: seq<Op>, id: string)
    requires AllowedRun(EMPTY, ops) && id in Run(EMPTY, ops).orders
    ensures var o := Run(EMPTY, ops).orders[id];
            && Render(o).Rendered?
            && (RendersFaithfully(o) <==> !(o.state.Attention? && o.attention.None?))
            && (!RendersFaithfully(o) ==> o.next < |o.steps|)
  {
    RunInv(ops);
    FaithfulIff(Run(EMPTY, ops).orders[id]);
  }

  /** A poll or a creation always answers with a rendering that loses nothing. */
  lemma AnswersFaithfully(ops: seq<Op>, op: Op)
    requires AllowedRun(EMPTY, ops + [op]) && (op.PollOp? || op.CreateOp?)
    requires op.id in Run(EMPTY, ops + [op]).orders
    ensures RendersFaithfully(Run(EMPTY, ops + [op]).orders[op.id])
  {
    assert (ops + [op])[..|ops|] == ops;
    RunInv(ops);
    RunInv(ops + [op]);
    var c, c' := Run(EMPTY, ops), Run(EMPTY, ops + [op]);
    FaithfulIff(c'.orders[op.id]);
    if op.PollOp? { PolledHasReason(c, op.id); }
  }

  lemma PolledHasReason(c: Core, id: string)
    requires Inv(c) && id in c.orders
    ensures var o := Poll(c, id).orders[id]; o.state.Attention? ==> o.attention.Some?
  {
    hide PaidInv;
  }

  // ----- the payer ------------------------------------------------------------------------------

  /** The order was in state `s` after some step of the run. */
  predicate Was(ops: seq<Op>, id: string, s: SwapState)
    decreases |ops|
  {
    var c := Run(EMPTY, ops);
    (id in c.orders && c.orders[id].state == s) || (ops != [] && Was(ops[..|ops| - 1], id, s))
  }

  /** The log of entered states misses nothing: an order's state is in it. */
  predicate Logged(c: Core, id: string) {
    id in c.orders && !c.orders[id].state.AwaitingDeposit? ==> (id, c.orders[id].state) in c.entered
  }

  lemma StepEntered(c: Core, op: Op, id: string, s: SwapState)
    requires Logged(c, id) && Allowed(c, op) && !s.AwaitingDeposit?
    ensures Logged(Step(c, op), id)
    ensures var c' := Step(c, op);
            (id, s) in c'.entered <==> (id, s) in c.entered || (id in c'.orders && c'.orders[id].state == s)
  {
    match op
    case RefundOp(selector, reason) => ForceEntered(c, selector, RefundRequired, None, Some(reason), id, s);
    case AttentionOp(selector, reason) => ForceEntered(c, selector, Attention, Some(reason), None, id, s);
    case CreateOp(other, asset, bolt11, trade) => CreateEntered(c, other, asset, bolt11, trade, id, s);
    case PollOp(other) => MoveEntered(c, op, id, s);
    case ClaimOp(other, choice, address) => MoveEntered(c, op, id, s);
    case _ => QuietEntered(c, op, id, s);
  }

  /** The step's effect on one order and one entry of the log. */
  predicate Records(c: Core, c': Core, id: string, s: SwapState) {
    && Logged(c', id)
    && ((id, s) in c'.entered <==> (id, s) in c.entered || (id in c'.orders && c'.orders[id].state == s))
  }

  lemma ForceEntered(c: Core, selector: string, to: SwapState, attention: Option<AttentionReason>, refund: Option<RefundReason>,
                     id: string, s: SwapState)
    requires Logged(c, id) && !s.AwaitingDeposit?
    ensures Records(c, Force(c, selector, to, attention, refund), id, s)
  {
    hide IsAsset, Matches;
  }

  lemma CreateEntered(c: Core, other: string, asset: string, bolt11: string, trade: bool, id: string, s: SwapState)
    requires Logged(c, id) && other !in c.orders && !s.AwaitingDeposit?
    ensures Records(c, Create(c, other, asset, bolt11, trade), id, s)
  {
    hide IsBlank;
  }

  lemma MoveEntered(c: Core, op: Op, id: string, s: SwapState)
    requires Logged(c, id) && (op.PollOp? || op.ClaimOp?) && !s.AwaitingDeposit?
    ensures Records(c, Step(c, op), id, s)
  {
    hide IsBlank;
  }

  lemma QuietEntered(c: Core, op: Op, id: string, s: SwapState)
    requires Logged(c, id) && (op.ScriptOp? || op.CreateErrorOp?) && !s.AwaitingDeposit?
    ensures Records(c, Step(c, op), id, s)
  {
    hide IsAsset, Matches, AllScriptable;
  }

  lemma {:induction false} EnteredIffWas(ops: seq<Op>, id: string, s: SwapState)
    requires AllowedRun(EMPTY, ops) && !s.AwaitingDeposit?
    ensures Logged(Run(EMPTY, ops), id)
    ensures (id, s) in Run(EMPTY, ops).entered <==> Was(ops, id, s)
    decreases |ops|
  {
    if ops != [] {
      EnteredIffWas(ops[..|ops| - 1], id, s);
      StepEntered(Run(EMPTY, ops[..|ops| - 1]), ops[|ops| - 1], id, s);
    }
  }

  /** The payer was called once for each order that was ever completed, and for no other. */
  lemma PaidOnceIffCompleted(ops: seq<Op>, id: string)
    requires AllowedRun(EMPTY, ops)
    ensures Distinct(Run(EMPTY, ops).payments)
    ensures id in Run(EMPTY, ops).payments <==> Was(ops, id, Completed)
  {
    RunInv(ops);
    EnteredIffWas(ops, id, Completed);
  }

  // ----- scripts --------------------------------------------------------------------------------

  /** The operation controls or claims this order (a poll does neither). */
  predicate Touches(op: Op, id: string, asset: string) {
    match op
    case ScriptOp(selector, _) => selector == id || selector == asset
    case RefundOp(selector, _) => selector == id || selector == asset
    case AttentionOp(selector, _) => selector == id || selector == asset
    case CreateOp(other, _, _, _) => other == id
    case ClaimOp(other, _, _) => other == id
    case _ => false
  }

  predicate Untouched(ops: seq<Op>, id: string, asset: string) {
    forall i :: 0 <= i < |ops| ==> !Touches(ops[i], id, asset)
  }

  function Polls(ops: seq<Op>, id: string): nat {
    if ops == [] then 0 else Polls(ops[..|ops| - 1], id) + if ops[|ops| - 1] == PollOp(id) then 1 else 0
  }

  /** `n` polls into the script. */
  predicate AtStep(o: Order, steps: seq<SwapState>, n: nat) {
    && o.steps == steps && o.next == (if n < |steps| then n else |steps|)
    && (n > 0 && steps != [] ==> o.state == steps[o.next - 1])
  }

  lemma StepScript(c: Core, op: Op, id: string, steps: seq<SwapState>, n: nat)
    requires id in c.orders && AtStep(c.orders[id], steps, n) && !Touches(op, id, c.orders[id].asset)
    ensures id in Step(c, op).orders && Step(c, op).orders[id].asset == c.orders[id].asset
    ensures AtStep(Step(c, op).orders[id], steps, if op == PollOp(id) then n + 1 else n)
  {
    hide IsAsset, IsBlank;
  }

  lemma {:induction false} RunScript(c: Core, ops: seq<Op>, id: string, steps: seq<SwapState>)
    requires id in c.orders && AtStep(c.orders[id], steps, 0) && Untouched(ops, id, c.orders[id].asset)
    ensures id in Run(c, ops).orders && Run(c, ops).orders[id].asset == c.orders[id].asset
    ensures AtStep(Run(c, ops).orders[id], steps, Polls(ops, id))
    decreases |ops|
  {
    if ops != [] {
      RunScript(c, ops[..|ops| - 1], id, steps);
      StepScript(Run(c, ops[..|ops| - 1]), ops[|ops| - 1], id, steps, Polls(ops[..|ops| - 1], id));
    }
  }

  /** After `Script(steps)` and n polls with no other control of the order between, whatever
      happens to other orders, the state is the n-th step, and then the last one. */
  lemma ScriptFollowed(c: Core, selector: string, steps: seq<SwapState>, ops: seq<Op>, id: string)
    requires id in c.orders && Matches(selector, id, c.orders[id])
    requires steps != [] && AllScriptable(steps) && Untouched(ops, id, c.orders[id].asset)
    ensures var c' := Run(Script(c, selector, steps), ops);
            var n := Polls(ops, id);
            && id in c'.orders
            && (n > 0 ==> c'.orders[id].state == steps[if n < |steps| then n - 1 else |steps| - 1])
  {
    assert AtStep(Script(c, selector, steps).orders[id], steps, 0);
    hide Run, Script, Untouched, Polls, AllScriptable, Matches;
    RunScript(Script(c, selector, steps), ops, id, steps);
  }

  /** The operation replaces or takes what is queued for the asset. */
  predicate Dequeues(c: Core, op: Op, asset: string) {
    match op
    case ScriptOp(selector, steps) => selector == asset && steps != [] && AllScriptable(steps)
    case RefundOp(selector, reason) => selector == asset && !reason.OtherReason?
    case AttentionOp(selector, reason) => selector == asset && !reason.OtherAttention?
    case CreateOp(id, a, bolt11, trade) => a == asset && c.createError.None? && trade && !IsBlank(bolt11)
    case _ => false
  }

  predicate QueueKept(c: Core, ops: seq<Op>, asset: string)
    decreases |ops|
  {
    ops == [] || (QueueKept(c, ops[..|ops| - 1], asset) && !Dequeues(Run(c, ops[..|ops| - 1]), ops[|ops| - 1], asset))
  }

  lemma {:induction false} QueueWaits(c: Core, ops: seq<Op>, asset: string)
    requires QueueKept(c, ops, asset)
    ensures asset in Run(c, ops).pending <==> asset in c.pending
    ensures asset in c.pending ==> Run(c, ops).pending[asset] == c.pending[asset]
    decreases |ops|
  {
    hide IsAsset, IsBlank;
    if ops != [] { QueueWaits(c, ops[..|ops| - 1], asset); }
  }

  /** A script queued for an asset reaches the first order created for it, however long that
      takes, and no later one. */
  lemma QueuedScriptReachesNext(c: Core, asset: string, steps: seq<SwapState>, before: seq<Op>, id: string, bolt11: string,
                                after: seq<Op>, later: string, bolt11': string)
    requires IsAsset(asset) && steps != [] && AllScriptable(steps)
    requires var queued := Script(c, asset, steps);
             var waited := Run(queued, before);
             var made := Create(waited, id, asset, bolt11, true);
             var waited' := Run(made, after);
             && QueueKept(queued, before, asset) && Dequeues(waited, CreateOp(id, asset, bolt11, true), asset)
             && QueueKept(made, after, asset) && Dequeues(waited', CreateOp(later, asset, bolt11', true), asset)
    ensures var waited := Run(Script(c, asset, steps), before);
            var made := Create(waited, id, asset, bolt11, true);
            var next := Create(Run(made, after), later, asset, bolt11', true);
            && made.orders[id].steps == steps && made.orders[id].next == 0
            && next.orders[later].steps == []
  {
    hide IsAsset, IsBlank, QueueKept, Run;
    var queued := Script(c, asset, steps);
    QueueWaits(queued, before, asset);
    var made := Create(Run(queued, before), id, asset, bolt11, true);
    QueueWaits(made, after, asset);
  }
}
