/** What each operation of the swap provider does to the orders, field by field, and what a client is
    then shown. */
module SwapSteps {
  import opened Text
  import opened SwapProvider

  /** Every other order, and all that is not an order, is as it was. */
  ghost predicate OnlyOrder(c: Core, c': Core, id: string) {
    && c'.orders.Keys == c.orders.Keys && c'.pending == c.pending && c'.createError == c.createError
    && forall other <- c.orders :: other != id ==> c'.orders[other] == c.orders[other]
  }

  /** The refund reason after a state that needs one. */
  predicate Defaulted(before: Option<RefundReason>, after: Option<RefundReason>) {
    if before.Some? then after == before else after == Some(Underpaid)
  }

  /** An accepted refund claim leaves the order waiting for its refund, with the address it was given,
      its own refund reason or else `underpaid`, and its script where it stood. */
  lemma ClaimAccepted(c: Core, id: string, address: string)
    requires id in c.orders && !IsBlank(address)
    ensures var c' := Claim(c, id, true, address);
            && OnlyOrder(c, c', id) && c'.payments == c.payments
            && c'.orders[id].state.RefundPending? && c'.orders[id].refundAddress == Some(address)
            && Defaulted(c.orders[id].refund, c'.orders[id].refund)
            && c'.orders[id].(state := c.orders[id].state, refundAddress := c.orders[id].refundAddress, refund := c.orders[id].refund) == c.orders[id]
  {
    hide IsBlank;
  }

  /** And a client is shown it so: an emergency, a refund chosen and on its way to the address, and no
      refund transaction yet. */
  lemma ClaimShown(c: Core, id: string, address: string)
    requires Inv(c) && id in c.orders && !IsBlank(address)
    ensures var o := Claim(c, id, true, address).orders[id];
            && Render(o).Rendered?
            && Render(o).wire.status == EMERGENCY && Render(o).wire.choice == ChooseRefund
            && Render(o).wire.back && !Render(o).wire.refundTx && Render(o).wire.depositTx && !Render(o).wire.payoutTx
    ensures Poll(Claim(c, id, true, address), id).orders[id].state.RefundPending? || c.orders[id].next < |c.orders[id].steps|
  {
    hide IsBlank, PaidInv;
    ClaimAccepted(c, id, address);
  }

  /** Any other claim changes nothing: an unknown order, another choice, or no address. */
  lemma ClaimRefused(c: Core, id: string, choice: bool, address: string)
    requires id !in c.orders || !choice || IsBlank(address)
    ensures Claim(c, id, choice, address) == c
  {
    hide IsBlank;
  }

  /** A selector names the orders of an asset, or the one order with that id. */
  predicate Named(selector: string, id: string, asset: string) {
    if IsAsset(selector) then asset == selector else id == selector
  }

  /** What a control leaves queued: the given script under its asset, everything else as it was. */
  ghost predicate Queued(c: Core, c': Core, selector: string, p: Pending) {
    && c'.createError == c.createError && c'.payments == c.payments && c'.orders.Keys == c.orders.Keys
    && c'.pending == if IsAsset(selector) then c.pending[selector := p] else c.pending
  }

  /** A script starts every named order over, from its first step and without an attention reason, and
      leaves its state until the next poll. */
  lemma ScriptDoes(c: Core, selector: string, steps: seq<SwapState>)
    ensures steps == [] || (exists i :: 0 <= i < |steps| && steps[i].OtherState?) ==> Script(c, selector, steps) == c
    ensures steps != [] && (forall i :: 0 <= i < |steps| ==> !steps[i].OtherState?) ==>
              var c' := Script(c, selector, steps);
              && Queued(c, c', selector, Pending(steps, None, None)) && c'.entered == c.entered
              && forall id <- c.orders ::
                   if Named(selector, id, c.orders[id].asset) then c'.orders[id] == c.orders[id].(steps := steps, next := 0, attention := None)
                   else c'.orders[id] == c.orders[id]
  {
    hide IsAsset;
  }

  /** A forced refund ends the script of every named order there and then, with the given reason; one
      the provider does not know does nothing. */
  lemma RefundDoes(c: Core, selector: string, reason: RefundReason)
    ensures reason.OtherReason? ==> ForceRefund(c, selector, reason) == c
    ensures !reason.OtherReason? ==>
              var c' := ForceRefund(c, selector, reason);
              && Queued(c, c', selector, Pending([RefundRequired], None, Some(reason)))
              && forall id <- c.orders ::
                   if Named(selector, id, c.orders[id].asset)
                   then c'.orders[id] == c.orders[id].(state := RefundRequired, steps := [], next := 0, attention := None, refund := Some(reason))
                   else c'.orders[id] == c.orders[id]
  {
    hide IsAsset;
  }

  /** Forced attention keeps whatever refund reason the order has. */
  lemma AttentionDoes(c: Core, selector: string, reason: AttentionReason)
    ensures reason.OtherAttention? ==> ForceAttention(c, selector, reason) == c
    ensures !reason.OtherAttention? ==>
              var c' := ForceAttention(c, selector, reason);
              && Queued(c, c', selector, Pending([Attention], Some(reason), None))
              && forall id <- c.orders ::
                   if Named(selector, id, c.orders[id].asset)
                   then c'.orders[id] == c.orders[id].(state := Attention, steps := [], next := 0, attention := Some(reason))
                   else c'.orders[id] == c.orders[id]
  {
    hide IsAsset;
  }

  /** A forced reason waits for the asset's next order and is what its first poll shows. */
  lemma ForcedReachesNext(c: Core, asset: string, reason: RefundReason, attention: AttentionReason, id: string, bolt11: string)
    requires IsAsset(asset) && c.createError.None? && !IsBlank(bolt11)
    requires !reason.OtherReason? && !attention.OtherAttention?
    ensures var o := Poll(Create(ForceRefund(c, asset, reason), id, asset, bolt11, true), id).orders[id];
            o.state.RefundRequired? && o.refund == Some(reason)
    ensures var o := Poll(Create(ForceAttention(c, asset, attention), id, asset, bolt11, true), id).orders[id];
            o.state.Attention? && o.attention == Some(attention) && o.refund.None?
  {
    hide IsAsset, IsBlank;
  }

  /** A poll takes the next scripted step, if there is one: a refund state gets a reason, attention gets
      one, and entering `completed` for the first time calls the payer. */
  lemma PollDoes(c: Core, id: string)
    requires id in c.orders
    ensures var o, c' := c.orders[id], Poll(c, id);
            if |o.steps| <= o.next then c' == c
            else
              var o' := c'.orders[id];
              && OnlyOrder(c, c', id)
              && o'.state == o.steps[o.next] && o'.next == o.next + 1
              && o'.(state := o.state, next := o.next, refund := o.refund, attention := o.attention, payerInvoked := o.payerInvoked) == o
              && (if o'.state in {RefundRequired, RefundPending, Refunded} then Defaulted(o.refund, o'.refund) else o'.refund == o.refund)
              && o'.attention == (if o'.state.Attention? && o.attention.None? then Some(ReportedEmergency) else o.attention)
              && (o'.payerInvoked <==> o.payerInvoked || o'.state.Completed?)
              && c'.payments == (if o'.state.Completed? && !o.payerInvoked then c.payments + [id] else c.payments)
  {
  }

  lemma PollUnknown(c: Core, id: string)
    requires id !in c.orders
    ensures Poll(c, id) == c
  {
  }

  /** A new order waits for its deposit, with the queued script and reasons of its asset if there are
      any, which are then no longer queued; a forced error is used up instead. */
  lemma CreateDoes(c: Core, id: string, asset: string, bolt11: string, trade: bool)
    requires id !in c.orders
    ensures var c' := Create(c, id, asset, bolt11, trade);
            if c.createError.Some? then c' == c.(createError := None)
            else if !trade || IsBlank(bolt11) then c' == c
            else
              && c'.orders.Keys == c.orders.Keys + {id} && (forall other <- c.orders :: c'.orders[other] == c.orders[other])
              && c'.createError == c.createError && c'.payments == c.payments && c'.entered == c.entered
              && c'.pending.Keys == c.pending.Keys - {asset} && (forall a <- c'.pending :: c'.pending[a] == c.pending[a])
              && var o := c'.orders[id];
              && o.asset == asset && o.bolt11 == bolt11 && o.state.AwaitingDeposit? && o.next == 0
              && o.refundAddress.None? && !o.payerInvoked
              && (if asset in c.pending then
                    var p := c.pending[asset]; o.steps == p.steps && o.attention == p.attention && o.refund == p.refund
                  else o.steps == [] && o.attention.None? && o.refund.None?)
  {
    hide IsBlank;
  }

  /** What a rendering shows besides its status: a deposit in every state but the first and `expired`, a
      payout once completed, a way back once there is an address for it or it has been used, and a
      refund transaction then. Outside an emergency there are no emergency statuses, and inside one they
      are those of the order's reason, or of `underpaid`. */
  lemma RenderingShows(o: Order)
    requires Render(o).Rendered?
    ensures var w := Render(o).wire;
            && (w.depositTx <==> o.state != AwaitingDeposit && o.state != Expired)
            && (w.payoutTx <==> o.state == Completed)
            && (w.back <==> o.refundAddress.Some? || o.state == Refunded)
            && (w.refundTx <==> o.state == Refunded)
            && (w.status == EMERGENCY <==> o.state in {RefundRequired, RefundPending, Refunded} || (o.state == Attention && o.attention != Some(StatusUnrecognized)))
            && (w.status != EMERGENCY ==> w.emergency == [])
            && (w.status == EMERGENCY ==>
                  && (o.refund.None? || o.refund == Some(Underpaid) ==> w.emergency == [LESS])
                  && (o.refund == Some(Overpaid) ==> w.emergency == [MORE])
                  && (o.refund == Some(LateDeposit) ==> w.emergency == [EmergencyStatus.EXPIRED])
                  && (o.refund == Some(UnderpaidAndLate) ==> w.emergency == [LESS, EmergencyStatus.EXPIRED])
                  && (o.refund == Some(OverpaidAndLate) ==> w.emergency == [MORE, EmergencyStatus.EXPIRED]))
  {
  }

  /** The status and the choice of each state. */
  lemma StatusShown(o: Order)
    requires Render(o).Rendered?
    ensures var w := Render(o).wire;
            && (o.state.AwaitingDeposit? <==> w.status == NEW) && (o.state.Confirming? <==> w.status == PENDING)
            && (o.state.Exchanging? <==> w.status == EXCHANGE) && (o.state.PayingInvoice? <==> w.status == WITHDRAW)
            && (o.state.Completed? <==> w.status == DONE) && (o.state.Expired? <==> w.status == Status.EXPIRED)
            && (o.state.Failed? <==> w.status == FAILED)
            && (w.status == SOMETHING_NEW <==> o.state.Attention? && o.attention == Some(StatusUnrecognized))
            && (w.choice == ChooseRefund <==> o.state.RefundPending? || o.state.Refunded?)
            && (w.choice == ChooseExchange <==> o.state.Attention? && o.attention != Some(StatusUnrecognized))
  {
  }
}
