/** The provider object of `FakeLscProviderCore.cs`, proved against the transitions of
    `SwapProvider`. */
module FakeLsc {
  import opened Text
  import opened SwapProvider
  import Spec = SwapProvider

  datatype Answer = Ok(rendering: Rendering) | Accepted | ApiError(message: string)

  lemma ForcedNone(c: Core, s: SwapState, attention: Option<AttentionReason>, refund: Option<RefundReason>)
    ensures ForcedCore(c, {}, s, attention, refund) == c
  {
    assert Entries({}, s) == {};
  }

  /** Forcing one more order is forcing the set with that order in it. */
  lemma ForcedAdd(c: Core, ids: set<string>, id: string, s: SwapState,
                  attention: Option<AttentionReason>, refund: Option<RefundReason>)
    requires id in c.orders && id !in ids && !s.Completed?
    ensures var before := ForcedCore(c, ids, s, attention, refund);
            && id in before.orders
            && ForcedCore(c, ids + {id}, s, attention, refund) == ForcedOne(before, id, s, attention, refund)
  {
    EntriesAdd(ids, id, s);
    OrdersAdd(c.orders, ids, id, s, attention, refund);
    hide Forced, Entries, ForcedOrders;
  }

  lemma EntriesAdd(ids: set<string>, id: string, s: SwapState)
    ensures Entries(ids + {id}, s) == Entries(ids, s) + {(id, s)}
  {
  }

  lemma OrdersAdd(orders: map<string, Order>, ids: set<string>, id: string, s: SwapState,
                  attention: Option<AttentionReason>, refund: Option<RefundReason>)
    requires id in orders && id !in ids
    ensures var before := ForcedOrders(orders, ids, s, attention, refund);
            && id in before && before[id] == orders[id]
            && ForcedOrders(orders, ids + {id}, s, attention, refund) == before[id := Forced(orders[id], s, attention, refund)]
  {
    hide Forced;
  }

  function ForcedOne(c: Core, id: string, s: SwapState, attention: Option<AttentionReason>, refund: Option<RefundReason>): Core
    requires id in c.orders
  {
    c.(orders := c.orders[id := Forced(c.orders[id], s, attention, refund)], entered := c.entered + {(id, s)})
  }

  class FakeLscProvider {
    var orders: map<string, Order>
    var pending: map<string, Pending>
    var createError: Option<string>
    /** The order of every payer call, in order. */
    var payments: seq<string>
    ghost var entered: set<(string, SwapState)>

    ghost function Model(): Core
      reads this
    {
      Core(orders, pending, createError, payments, entered)
    }

    constructor ()
      ensures Model() == EMPTY
    {
      orders, pending, createError, payments, entered := map[], map[], None, [], {};
    }

    /** False where the source throws: no steps, or an unknown state. */
    method Script(selector: string, steps: seq<SwapState>) returns (ok: bool)
      modifies this`orders, this`pending
      ensures ok <==> steps != [] && AllScriptable(steps)
      ensures Model() == Spec.Script(old(Model()), selector, steps)
    {
      if steps == [] { return false; }
      if exists i | 0 <= i < |steps| :: !Scriptable(steps[i]) { return false; }
      ScriptMatching(selector, steps);
      if IsAsset(selector) { pending := pending[selector := Pending(steps, None, None)]; }
      return true;
    }

    method ScriptMatching(selector: string, steps: seq<SwapState>)
      modifies this`orders
      ensures orders == ScriptedOrders(old(orders), Matching(old(orders), selector), steps)
    {
      hide Matching, Scripted;
      var todo := Matching(orders, selector);
      ghost var done: set<string> := {};
      while todo != {}
        invariant todo !! done && todo + done == Matching(old(orders), selector)
        invariant orders == ScriptedOrders(old(orders), done, steps)
        decreases |todo|
      {
        var id :| id in todo;
        orders := orders[id := Scripted(orders[id], steps)];
        todo, done := todo - {id}, done + {id};
      }
      assert done == Matching(old(orders), selector);
    }

    method ForceRefundRequired(selector: string, reason: RefundReason) returns (ok: bool)
      modifies this
      ensures ok <==> !reason.OtherReason?
      ensures Model() == ForceRefund(old(Model()), selector, reason)
    {
      if reason.OtherReason? { return false; }
      Force(selector, RefundRequired, None, Some(reason));
      return true;
    }

    method ForceAttention(selector: string, reason: AttentionReason) returns (ok: bool)
      modifies this
      ensures ok <==> !reason.OtherAttention?
      ensures Model() == Spec.ForceAttention(old(Model()), selector, reason)
    {
      if reason.OtherAttention? { return false; }
      Force(selector, Attention, Some(reason), None);
      return true;
    }

    method Force(selector: string, s: SwapState, attention: Option<AttentionReason>, refund: Option<RefundReason>)
      requires !s.Completed?
      modifies this
      ensures Model() == Spec.Force(old(Model()), selector, s, attention, refund)
    {
      ForceMatching(selector, s, attention, refund);
      if IsAsset(selector) { pending := pending[selector := Pending([s], attention, refund)]; }
    }

    method ForceMatching(selector: string, s: SwapState, attention: Option<AttentionReason>, refund: Option<RefundReason>)
      requires !s.Completed?
      modifies this`orders, this`payments, this`entered
      ensures Model() == ForcedCore(old(Model()), Matching(old(orders), selector), s, attention, refund)
    {
      hide Matching, ForcedCore, ForcedOne;
      var todo := Matching(orders, selector);
      ghost var done: set<string> := {};
      ForcedNone(Model(), s, attention, refund);
      while todo != {}
        invariant todo !! done && todo + done == Matching(old(orders), selector)
        invariant Model() == ForcedCore(old(Model()), done, s, attention, refund)
        decreases |todo|
      {
        var id :| id in todo;
        ForcedAdd(old(Model()), done, id, s, attention, refund);
        ForceOne(id, s, attention, refund);
        todo, done := todo - {id}, done + {id};
      }
      assert done == Matching(old(orders), selector);
    }

    method ForceOne(id: string, s: SwapState, attention: Option<AttentionReason>, refund: Option<RefundReason>)
      requires id in orders && !s.Completed?
      modifies this`orders, this`payments, this`entered
      ensures Model() == ForcedOne(old(Model()), id, s, attention, refund)
    {
      var o := orders[id];
      Apply(id, o.(steps := [], next := 0, attention := attention, refund := if refund.Some? then refund else o.refund), s);
    }

    method ForceCreateError(message: string)
      modifies this`createError
      ensures createError == Some(message)
    {
      createError := Some(message);
    }

    /** Stores the order as given and moves it; the first entry into `completed` calls the payer. */
    method Apply(id: string, order: Order, s: SwapState)
      modifies this`orders, this`payments, this`entered
      ensures Model() == Spec.Apply(old(Model()), id, order, s)
    {
      var o := order.(state := s);
      if IsRefundState(s) && o.refund.None? { o := o.(refund := Some(Underpaid)); }
      if s.Attention? && o.attention.None? { o := o.(attention := Some(ReportedEmergency)); }
      if s.Completed? && !o.payerInvoked {
        o := o.(payerInvoked := true);
        payments := payments + [id];
      }
      orders := orders[id := o];
      entered := entered + {(id, s)};
    }

    method Create(id: string, asset: string, bolt11: string, trade: bool) returns (r: Answer)
      modifies this`orders, this`pending, this`createError
      ensures Model() == Spec.Create(old(Model()), id, asset, bolt11, trade)
      ensures r.Ok? <==> old(createError).None? && trade && !IsBlank(bolt11)
      ensures r.Ok? ==> id in orders && r.rendering == Render(orders[id])
      ensures old(createError).Some? ==> r == ApiError(old(createError).value)
    {
      if createError.Some? {
        r := ApiError(createError.value);
        createError := None;
        return;
      }
      if !trade { return ApiError("unsupported trade"); }
      if IsBlank(bolt11) { return ApiError("toAddress is required"); }
      var order := Order(asset, bolt11, AwaitingDeposit, [], 0, None, None, None, false);
      if asset in pending {
        var p := pending[asset];
        order := order.(steps := p.steps, attention := p.attention, refund := p.refund);
      }
      pending := pending - {asset};
      orders := orders[id := order];
      return Ok(Render(order));
    }

    method Poll(id: string) returns (r: Answer)
      modifies this
      ensures Model() == Spec.Poll(old(Model()), id)
      ensures r == if id in old(orders) then Ok(Render(orders[id])) else ApiError("Order not found")
    {
      if id !in orders { return ApiError("Order not found"); }
      var o := orders[id];
      if o.next < |o.steps| {
        Apply(id, o.(next := o.next + 1), o.steps[o.next]);
      }
      return Ok(Render(orders[id]));
    }

    method Emergency(id: string, refundChoice: bool, address: string) returns (r: Answer)
      modifies this
      ensures Model() == Claim(old(Model()), id, refundChoice, address)
      ensures r.Accepted? <==> id in old(orders) && refundChoice && !IsBlank(address)
      ensures r.Accepted? ==> id in orders && orders[id].state.RefundPending? && orders[id].refundAddress == Some(address)
    {
      if id !in orders { return ApiError("Order not found"); }
      if !refundChoice { return ApiError("Unsupported emergency choice"); }
      if IsBlank(address) { return ApiError("address is required"); }
      var o := orders[id].(refundAddress := Some(address));
      if o.refund.None? { o := o.(refund := Some(Underpaid)); }
      Apply(id, o, RefundPending);
      return Accepted;
    }
  }
}
