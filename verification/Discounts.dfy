/** Applying discount codes to bookings, and the usage count. */
module Discounts {
  import opened Options
  import opened Tables
  import opened Collections

  datatype Kind = Percentage | FixedAmount

  /** What a discount takes off. */
  datatype Terms = Terms(kind: Kind, value: real, minAmount: Option<real>, maxDiscount: Option<real>)

  datatype Discount = Discount(code: string, terms: Terms, usageLimit: Option<int>, usageCount: int,
                               validFrom: int, validUntil: int, active: bool, deleted: bool)

  /** The price columns of a booking. */
  datatype Bill = Bill(price: Option<real>, discountAmount: Option<real>, finalPrice: Option<real>)

  /** A row recording that a discount was applied to a booking. */
  datatype Use = Use(booking: Id, discount: Id, amount: real)

  datatype Till = Till(discounts: seq<Discount>, bills: seq<Bill>, uses: seq<Use>)

  datatype Answer = Applied | BookingMissing | CodeInvalid | LimitReached | AlreadyUsed

  function Upper(code: string): string {
    seq(|code|, i requires 0 <= i < |code| => if 'a' <= code[i] <= 'z' then (code[i] as int - 32) as char else code[i])
  }

  function DiscountAmount(price: real, d: Terms): real {
    if d.minAmount.Some? && price < d.minAmount.value then 0.0
    else
      var wanted := if d.kind.Percentage? then price * d.value / 100.0 else d.value;
      var capped := if d.maxDiscount.Some? && wanted > d.maxDiscount.value then d.maxDiscount.value else wanted;
      if capped <= price then capped else price
  }

  predicate Usable(d: Discount, code: string, now: int) {
    d.code == Upper(code) && d.active && !d.deleted && d.validFrom <= now <= d.validUntil
  }

  function FindCode(discounts: seq<Discount>, code: string, now: int): Option<Id> {
    if discounts == [] then None
    else
      var n := |discounts| - 1;
      var earlier := FindCode(discounts[..n], code, now);
      if earlier.Some? then earlier else if Usable(discounts[n], code, now) then Some(n) else None
  }

  /** A limit that is set, other than 0, and reached. */
  predicate Exhausted(d: Discount) {
    d.usageLimit.Or(0) != 0 && d.usageCount >= d.usageLimit.value
  }

  function Pair(booking: Id, discount: Id): Use -> bool {
    (u: Use) => u.booking == booking && u.discount == discount
  }

  function Of(discount: Id): Use -> bool {
    (u: Use) => u.discount == discount
  }

  datatype Result = Result(till: Till, answer: Answer)

  /** A second use of a discount on the same booking breaks the unique key, and the whole transaction fails. */
  function ApplyDiscount(t: Till, booking: Id, code: string, now: int): Result {
    if booking >= |t.bills| then Result(t, BookingMissing)
    else
      var found := FindCode(t.discounts, code, now);
      if found.None? || found.value >= |t.discounts| then Result(t, CodeInvalid)
      else
        var k := found.value;
        var d := t.discounts[k];
        if Exhausted(d) then Result(t, LimitReached)
        else if Count(t.uses, Pair(booking, k)) != 0 then Result(t, AlreadyUsed)
        else
          var price := t.bills[booking].price.Or(0.0);
          var amount := DiscountAmount(price, d.terms);
          Result(Till(t.discounts[k := d.(usageCount := d.usageCount + 1)],
                      t.bills[booking := t.bills[booking].(discountAmount := Some(amount),
                                                            finalPrice := Some(price - amount))],
                      t.uses + [Use(booking, k, amount)]), Applied)
  }

  datatype Attempt = Attempt(booking: Id, code: string, now: int)

  function Run(t: Till, attempts: seq<Attempt>): Till {
    if attempts == [] then t
    else
      var last := attempts[|attempts| - 1];
      ApplyDiscount(Run(t, attempts[..|attempts| - 1]), last.booking, last.code, last.now).till
  }

  // ----- invariants

  /** The usage count is the number of use rows, within the limit if one is set. */
  ghost predicate Counted(t: Till, k: Id)
    requires k < |t.discounts|
  {
    var d := t.discounts[k];
    && d.usageCount == Count(t.uses, Of(k))
    && (d.usageLimit.Or(0) > 0 ==> d.usageCount <= d.usageLimit.value)
    && (d.usageLimit.Or(0) < 0 ==> d.usageCount == 0)
  }

  /** A booking's discount columns are those of its last use row; without one they are empty. */
  ghost predicate Billed(t: Till, b: Id)
    requires b < |t.bills|
  {
    var bill := t.bills[b];
    match LastUse(t.uses, b)
    case None => bill.discountAmount.None? && bill.finalPrice.None?
    case Some(use) =>
      && use.discount < |t.discounts|
      && use.amount == DiscountAmount(bill.price.Or(0.0), t.discounts[use.discount].terms)
      && bill.discountAmount == Some(use.amount) && bill.finalPrice == Some(bill.price.Or(0.0) - use.amount)
  }

  function LastUse(uses: seq<Use>, booking: Id): Option<Use> {
    if uses == [] then None
    else if uses[|uses| - 1].booking == booking then Some(uses[|uses| - 1])
    else LastUse(uses[..|uses| - 1], booking)
  }

  /** A discount is used at most once on a booking. */
  ghost predicate UsedOnce(t: Till) {
    forall i: nat, j: nat | i < j < |t.uses| ::
      t.uses[i].booking != t.uses[j].booking || t.uses[i].discount != t.uses[j].discount
  }

  ghost predicate Kept(t: Till) {
    && (forall k: nat | k < |t.discounts| :: Counted(t, k))
    && (forall b: nat | b < |t.bills| :: Billed(t, b))
    && UsedOnce(t)
  }

  /** Discounts with new counts and bookings without discounts. */
  ghost predicate Fresh(t: Till) {
    && t.uses == []
    && (forall k: nat | k < |t.discounts| :: t.discounts[k].usageCount == 0)
    && (forall b: nat | b < |t.bills| :: t.bills[b].discountAmount.None? && t.bills[b].finalPrice.None?)
  }

  lemma AppliedKeepsCounts(t: Till, booking: Id, code: string, now: int, k: Id)
    requires Kept(t) && ApplyDiscount(t, booking, code, now).answer.Applied? && k < |t.discounts|
    ensures var t' := ApplyDiscount(t, booking, code, now).till; |t'.discounts| == |t.discounts| && Counted(t', k)
  {
    var t' := ApplyDiscount(t, booking, code, now).till;
    assert Counted(t, k);
    CountAppend(t.uses, t'.uses[|t.uses|], Of(k));
    assert t'.uses == t.uses + [t'.uses[|t.uses|]];
  }

  lemma AppliedKeepsBills(t: Till, booking: Id, code: string, now: int, b: Id)
    requires Kept(t) && ApplyDiscount(t, booking, code, now).answer.Applied? && b < |t.bills|
    ensures var t' := ApplyDiscount(t, booking, code, now).till; |t'.bills| == |t.bills| && Billed(t', b)
  {
    var t' := ApplyDiscount(t, booking, code, now).till;
    assert Billed(t, b);
    assert t'.uses[..|t'.uses| - 1] == t.uses;
  }

  lemma AppliedOnce(t: Till, booking: Id, code: string, now: int)
    requires UsedOnce(t) && ApplyDiscount(t, booking, code, now).answer.Applied?
    ensures UsedOnce(ApplyDiscount(t, booking, code, now).till)
  {
    var uses := ApplyDiscount(t, booking, code, now).till.uses;
    var use := uses[|t.uses|];
    CountPositive(t.uses, Pair(use.booking, use.discount));
    assert forall i: nat | i < |t.uses| :: !Pair(use.booking, use.discount)(t.uses[i]);
  }

  lemma KeptStep(t: Till, booking: Id, code: string, now: int)
    requires Kept(t)
    ensures Kept(ApplyDiscount(t, booking, code, now).till)
  {
    var r := ApplyDiscount(t, booking, code, now);
    if r.answer.Applied? {
      forall k: nat | k < |r.till.discounts| ensures Counted(r.till, k) {
        AppliedKeepsCounts(t, booking, code, now, k);
      }
      forall b: nat | b < |r.till.bills| ensures Billed(r.till, b) { AppliedKeepsBills(t, booking, code, now, b); }
      AppliedOnce(t, booking, code, now);
    } else {
      assert r.till == t;
    }
  }

  /** Unused discounts and bookings without a discount are in order. */
  lemma FreshKept(t: Till)
    requires Fresh(t)
    ensures Kept(t)
  {
    forall k: nat | k < |t.discounts| ensures Counted(t, k) {}
    forall b: nat | b < |t.bills| ensures Billed(t, b) {}
  }

  lemma {:induction false} KeptRun(t: Till, attempts: seq<Attempt>)
    requires Kept(t)
    ensures Kept(Run(t, attempts))
  {
    if attempts != [] {
      var front, last := attempts[..|attempts| - 1], attempts[|attempts| - 1];
      KeptRun(t, front);
      KeptStep(Run(t, front), last.booking, last.code, last.now);
    }
  }

  /** Prices and discount terms never change. */
  lemma {:induction false} TermsFixed(t: Till, attempts: seq<Attempt>)
    ensures var t' := Run(t, attempts);
            && |t'.discounts| == |t.discounts| && |t'.bills| == |t.bills|
            && (forall k: nat | k < |t.discounts| ::
                  t'.discounts[k] == t.discounts[k].(usageCount := t'.discounts[k].usageCount))
            && (forall b: nat | b < |t.bills| :: t'.bills[b].price == t.bills[b].price)
  {
    if attempts != [] {
      TermsFixed(t, attempts[..|attempts| - 1]);
    }
  }

  /**
   After every run the usage count is the number of uses recorded, never above a limit, and no booking used
   a discount twice.
   */
  lemma {:induction false} UsageBookkeeping(t: Till, attempts: seq<Attempt>, k: Id)
    requires Kept(t) && k < |t.discounts|
    ensures var t' := Run(t, attempts);
            && k < |t'.discounts|
            && t'.discounts[k].usageCount == Count(t'.uses, Of(k))
            && t'.discounts[k].usageLimit == t.discounts[k].usageLimit
            && (t.discounts[k].usageLimit.Or(0) > 0 ==> t'.discounts[k].usageCount <= t.discounts[k].usageLimit.value)
            && UsedOnce(t')
  {
    KeptRun(t, attempts);
    TermsFixed(t, attempts);
    assert Counted(Run(t, attempts), k);
  }

  /** Discount terms as the input validation lets them through. */
  predicate Positive(d: Terms) {
    d.value > 0.0 && (d.maxDiscount.Some? ==> d.maxDiscount.value > 0.0)
  }

  /** The amount lies between nothing and the price exactly when the price is not negative. */
  lemma AmountInRange(price: real, d: Terms)
    requires Positive(d)
    ensures 0.0 <= DiscountAmount(price, d) <= price <==> price >= 0.0
  {
    if price >= 0.0 {
      assert price * d.value >= 0.0;
    }
  }

  /** Nothing below the minimum amount, otherwise the least of the discount's worth, its cap and the price. */
  predicate LeastOf(amount: real, price: real, d: Terms) {
    var worth := if d.kind.Percentage? then price * d.value / 100.0 else d.value;
    if d.minAmount.Some? && price < d.minAmount.value then amount == 0.0
    else
      && amount <= worth && amount <= price && (d.maxDiscount.Some? ==> amount <= d.maxDiscount.value)
      && (amount == worth || amount == price || Some(amount) == d.maxDiscount)
  }

  lemma AmountIsLeast(price: real, d: Terms)
    ensures LeastOf(DiscountAmount(price, d), price, d)
  {
  }

  /**
   After every run a discounted booking shows the amount of its last use, which is the least that the terms
   of its discount allow; its final price and amount add up to its price, and the final price lies between
   0 and the price exactly when the price is not negative.
   */
  lemma {:induction false} BillsAddUp(t: Till, attempts: seq<Attempt>, b: Id)
    requires Kept(t) && b < |t.bills| && forall k: nat | k < |t.discounts| :: Positive(t.discounts[k].terms)
    ensures var t' := Run(t, attempts);
            && b < |t'.bills|
            && var bill, price := t'.bills[b], t.bills[b].price.Or(0.0);
            && (bill.discountAmount.Some? <==> bill.finalPrice.Some?)
            && (bill.finalPrice.Some? <==> LastUse(t'.uses, b).Some?)
            && (bill.finalPrice.Some? ==>
                  && bill.discountAmount == Some(LastUse(t'.uses, b).value.amount)
                  && LastUse(t'.uses, b).value.discount < |t.discounts|
                  && LeastOf(bill.discountAmount.value, price, t.discounts[LastUse(t'.uses, b).value.discount].terms)
                  && bill.finalPrice.value + bill.discountAmount.value == price
                  && (0.0 <= bill.finalPrice.value <= price <==> price >= 0.0))
  {
    KeptRun(t, attempts);
    TermsFixed(t, attempts);
    var t' := Run(t, attempts);
    assert Billed(t', b);
    if LastUse(t'.uses, b).Some? {
      var price, terms := t'.bills[b].price.Or(0.0), t'.discounts[LastUse(t'.uses, b).value.discount].terms;
      AmountInRange(price, terms);
      AmountIsLeast(price, terms);
    }
  }

  lemma {:induction false} FindCodeFinds(discounts: seq<Discount>, code: string, now: int)
    ensures match FindCode(discounts, code, now)
            case None => forall k: nat :: k < |discounts| ==> !Usable(discounts[k], code, now)
            case Some(k) => k < |discounts| && Usable(discounts[k], code, now)
  {
    if discounts != [] {
      var n := |discounts| - 1;
      FindCodeFinds(discounts[..n], code, now);
      assert forall k: nat :: k < n ==> discounts[..n][k] == discounts[k];
    }
  }

  /** The stored code is the one given, small letters read as capitals. */
  ghost predicate Spelled(stored: string, given: string) {
    && |stored| == |given|
    && forall i :: 0 <= i < |given| ==>
         if 'a' <= given[i] <= 'z' then stored[i] as int - 'A' as int == given[i] as int - 'a' as int
         else stored[i] == given[i]
  }

  /** The discount is switched on, not deleted, within its period and has this code. */
  ghost predicate Current(d: Discount, code: string, now: int) {
    Spelled(d.code, code) && d.active && !d.deleted && d.validFrom <= now && now <= d.validUntil
  }

  lemma CurrentIsUsable(d: Discount, code: string, now: int)
    ensures Usable(d, code, now) <==> Current(d, code, now)
  {
    if Spelled(d.code, code) {
      forall i | 0 <= i < |code| ensures d.code[i] == Upper(code)[i] {}
      assert d.code == Upper(code);
    }
  }

  /** No limit is set (0 counts as none), or the uses stay below it. */
  ghost predicate UsesLeft(d: Discount) {
    d.usageLimit in {None, Some(0)} || d.usageCount < d.usageLimit.value
  }

  /**
   With discount codes unique, a code is accepted for a booking exactly when it belongs to an active
   discount in its period that is not exhausted and was not used on the booking before; a refused
   attempt changes nothing.
   */
  lemma DiscountAccepted(t: Till, booking: Id, code: string, now: int)
    requires forall k: nat, l: nat | k < l < |t.discounts| :: t.discounts[k].code != t.discounts[l].code
    ensures var r := ApplyDiscount(t, booking, code, now);
            && (r.answer.Applied? <==>
                  booking < |t.bills| && exists k: nat | k < |t.discounts| ::
                    && Current(t.discounts[k], code, now) && UsesLeft(t.discounts[k])
                    && forall u | u in t.uses :: u.booking != booking || u.discount != k)
            && (!r.answer.Applied? ==> r.till == t)
  {
    FindCodeFinds(t.discounts, code, now);
    forall k: nat | k < |t.discounts|
      ensures Usable(t.discounts[k], code, now) <==> Current(t.discounts[k], code, now)
    {
      CurrentIsUsable(t.discounts[k], code, now);
    }
    var found := FindCode(t.discounts, code, now);
    if found.Some? {
      PairUsed(t.uses, booking, found.value);
      assert forall k: nat | k < |t.discounts| && Usable(t.discounts[k], code, now) :: k == found.value;
    }
  }

  lemma PairUsed(uses: seq<Use>, booking: Id, discount: Id)
    ensures Count(uses, Pair(booking, discount)) > 0 <==>
            exists u | u in uses :: u.booking == booking && u.discount == discount
  {
    CountPositive(uses, Pair(booking, discount));
    if u :| u in uses && u.booking == booking && u.discount == discount {
      var i: nat :| i < |uses| && uses[i] == u;
      assert Pair(booking, discount)(uses[i]);
    }
  }

  /**
   An accepted code is used once more, the booking shows the least amount its terms allow and the price less
   that amount, and one use row is added; no other discount, booking or use changes.
   */
  lemma DiscountWrites(t: Till, booking: Id, code: string, now: int)
    requires ApplyDiscount(t, booking, code, now).answer.Applied?
    ensures var after := ApplyDiscount(t, booking, code, now).till;
            && booking < |t.bills|
            && exists k: nat, amount: real | k < |t.discounts| && Current(t.discounts[k], code, now) ::
                 var price := if t.bills[booking].price.Some? then t.bills[booking].price.value else 0.0;
                 && LeastOf(amount, price, t.discounts[k].terms)
                 && after.uses == t.uses + [Use(booking, k, amount)]
                 && after.discounts == t.discounts[k := t.discounts[k].(usageCount := t.discounts[k].usageCount + 1)]
                 && after.bills == t.bills[booking := Bill(t.bills[booking].price, Some(amount), Some(price - amount))]
  {
    FindCodeFinds(t.discounts, code, now);
    var k := FindCode(t.discounts, code, now).value;
    CurrentIsUsable(t.discounts[k], code, now);
    var price := t.bills[booking].price.Or(0.0);
    AmountIsLeast(price, t.discounts[k].terms);
    assert LeastOf(DiscountAmount(price, t.discounts[k].terms), price, t.discounts[k].terms);
  }

  /** Why a code is refused: no such booking, no current discount with the code, its limit, or an earlier use. */
  lemma DiscountRefused(t: Till, booking: Id, code: string, now: int)
    requires forall k: nat, l: nat | k < l < |t.discounts| :: t.discounts[k].code != t.discounts[l].code
    ensures var answer := ApplyDiscount(t, booking, code, now).answer;
            && (answer == BookingMissing <==> booking >= |t.bills|)
            && (answer == CodeInvalid <==>
                  booking < |t.bills| && forall k: nat | k < |t.discounts| :: !Current(t.discounts[k], code, now))
            && (answer == LimitReached <==>
                  booking < |t.bills| && exists k: nat | k < |t.discounts| ::
                    Current(t.discounts[k], code, now) && !UsesLeft(t.discounts[k]))
  {
    FindCodeFinds(t.discounts, code, now);
    forall k: nat | k < |t.discounts|
      ensures Usable(t.discounts[k], code, now) <==> Current(t.discounts[k], code, now)
    {
      CurrentIsUsable(t.discounts[k], code, now);
    }
    var found := FindCode(t.discounts, code, now);
    if found.Some? {
      assert forall k: nat | k < |t.discounts| && Usable(t.discounts[k], code, now) :: k == found.value;
    }
  }

  /** The pricing service as it runs: the three writes of the transaction one after another. */
  class PricingService {
    var discounts: seq<Discount>
    var bills: seq<Bill>
    var uses: seq<Use>

    function State(): Till
      reads this
    {
      Till(discounts, bills, uses)
    }

    constructor (t: Till)
      ensures State() == t
    {
      discounts, bills, uses := t.discounts, t.bills, t.uses;
    }

    method ApplyDiscountCode(booking: Id, code: string, now: int) returns (answer: Answer)
      requires Kept(State())
      modifies this
      ensures Result(State(), answer) == ApplyDiscount(old(State()), booking, code, now)
      ensures Kept(State())
    {
      ghost var next := ApplyDiscount(State(), booking, code, now);
      assert Kept(next.till) by { KeptStep(State(), booking, code, now); }
      answer := Applied;
      if booking >= |bills| {
        answer := BookingMissing;
      } else {
        var found := FindCode(discounts, code, now);
        if found.None? || found.value >= |discounts| {
          answer := CodeInvalid;
        } else {
          var k := found.value;
          if Exhausted(discounts[k]) {
            answer := LimitReached;
          } else if Count(uses, Pair(booking, k)) != 0 {
            answer := AlreadyUsed;
          } else {
            var price := bills[booking].price.Or(0.0);
            var amount := DiscountAmount(price, discounts[k].terms);
            uses := uses + [Use(booking, k, amount)];
            discounts := discounts[k := discounts[k].(usageCount := discounts[k].usageCount + 1)];
            bills := bills[booking := bills[booking].(discountAmount := Some(amount),
                                                      finalPrice := Some(price - amount))];
          }
        }
      }
      assert State() == next.till;
    }
  }
}
