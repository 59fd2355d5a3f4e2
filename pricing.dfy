/**
  The plan selector of the pricing page: at most one selected plan, and a map
  from plan id to the video format chosen on that plan's card.
 */
module Pricing {
  import opened Options

  /** The three values of a card's format select. */
  datatype Format = MicroTrottoir | Scripte | Interview

  /** The format a card shows while its plan has no entry in the format map. */
  const DefaultFormat: Format := MicroTrottoir

  datatype Plan = Plan(id: string, title: string, price: int)

  /** The three plans offered on the page. */
  const PricingPlans: seq<Plan> := [
    Plan("basic", "3 vidéos", 900),
    Plan("standard", "6 vidéos", 1700),
    Plan("premium", "10 vidéos", 2300)
  ]

  datatype SelectedProduct = SelectedProduct(id: string, title: string, price: int, format: Format)

  /** The component state: `selectedProduct` and `productFormats`. */
  datatype PricingState = PricingState(selectedProduct: Option<SelectedProduct>, productFormats: map<string, Format>)

  /** `productFormats[id] || 'micro-trottoir'`: the format a plan's card shows. */
  function CardFormat(productFormats: map<string, Format>, id: string): Format {
    if id in productFormats then productFormats[id] else DefaultFormat
  }

  /**
    A card shows the micro-trottoir default until its format is set, then the
    format last set for it; setting one card's format leaves the others alone.
   */
  lemma CardFormatAfterSet(productFormats: map<string, Format>, id: string, format: Format)
    ensures CardFormat(map[], id) == DefaultFormat
    ensures CardFormat(productFormats[id := format], id) == format
    ensures forall other :: other != id ==>
      CardFormat(productFormats[id := format], other) == CardFormat(productFormats, other)
  {
  }

  predicate IsSelected(s: PricingState, id: string) {
    s.selectedProduct.Some? && s.selectedProduct.value.id == id
  }

  /** The selection, if any, shows the same format as its plan's card. */
  predicate FormatsAgree(s: PricingState) {
    s.selectedProduct.Some? ==>
      s.selectedProduct.value.format == CardFormat(s.productFormats, s.selectedProduct.value.id)
  }

  /** The selection, if any, carries the id, title and price of one of the offered plans. */
  predicate FromCatalog(s: PricingState) {
    s.selectedProduct.Some? ==>
      exists p <- PricingPlans :: p.id == s.selectedProduct.value.id &&
        p.title == s.selectedProduct.value.title && p.price == s.selectedProduct.value.price
  }

  predicate Consistent(s: PricingState) {
    FormatsAgree(s) && FromCatalog(s)
  }

  /**
    The "Modifier le format" button: micro-trottoir → scripte → interview →
    micro-trottoir (every value other than the first two goes to micro-trottoir).
   */
  function NextFormat(f: Format): (g: Format)
    ensures g != f
  {
    if f == MicroTrottoir then Scripte
    else if f == Scripte then Interview
    else MicroTrottoir
  }

  /** The cycle goes through all three formats and comes back after three steps. */
  lemma NextFormatCycle(f: Format)
    ensures NextFormat(NextFormat(NextFormat(f))) == f
    ensures {f, NextFormat(f), NextFormat(NextFormat(f))} == {MicroTrottoir, Scripte, Interview}
  {
  }

  // ---------------------------------------------------------------------------
  // Transitions: the state after each handler
  // ---------------------------------------------------------------------------

  /**
    `handleProductSelect(plan)`: selecting the selected plan clears the
    selection; selecting any other plan makes it the only selection, with the
    format its card shows. The format map is not touched.
   */
  function AfterSelect(s: PricingState, plan: Plan): (r: PricingState)
    ensures r.productFormats == s.productFormats
    ensures r.selectedProduct.None? <==> IsSelected(s, plan.id)
    ensures r.selectedProduct.Some? ==>
      r.selectedProduct.value == SelectedProduct(plan.id, plan.title, plan.price, CardFormat(s.productFormats, plan.id))
    ensures FormatsAgree(r)
    ensures FromCatalog(s) && plan in PricingPlans ==> FromCatalog(r)
  {
    var format := CardFormat(s.productFormats, plan.id);
    if IsSelected(s, plan.id) then s.(selectedProduct := None)
    else s.(selectedProduct := Some(SelectedProduct(plan.id, plan.title, plan.price, format)))
  }

  /**
    `handleFormatChange(planId, format)`: the card's format becomes `format`,
    every other card keeps its format, and the selection follows only when it
    is that plan.
   */
  function AfterFormatChange(s: PricingState, planId: string, format: Format): (r: PricingState)
    ensures planId in r.productFormats && r.productFormats[planId] == format
    ensures r.productFormats.Keys == s.productFormats.Keys + {planId}
    ensures forall id :: id != planId ==> CardFormat(r.productFormats, id) == CardFormat(s.productFormats, id)
    ensures r.selectedProduct.Some? <==> s.selectedProduct.Some?
    ensures s.selectedProduct.Some? ==>
      var before, after := s.selectedProduct.value, r.selectedProduct.value;
      after.id == before.id && after.title == before.title && after.price == before.price &&
      after.format == (if before.id == planId then format else before.format)
    ensures Consistent(s) ==> Consistent(r)
  {
    var formats := s.productFormats[planId := format];
    if s.selectedProduct.Some? && s.selectedProduct.value.id == planId then
      PricingState(Some(s.selectedProduct.value.(format := format)), formats)
    else
      PricingState(s.selectedProduct, formats)
  }

  /**
    `updateProductFormat(newFormat)`: without a selection nothing changes;
    otherwise the selection and its plan's card both take `newFormat`.
   */
  function AfterUpdateProductFormat(s: PricingState, newFormat: Format): (r: PricingState)
    ensures s.selectedProduct.None? ==> r == s
    ensures s.selectedProduct.Some? ==>
      var id := s.selectedProduct.value.id;
      r.selectedProduct == Some(s.selectedProduct.value.(format := newFormat)) &&
      r.productFormats.Keys == s.productFormats.Keys + {id} &&
      CardFormat(r.productFormats, id) == newFormat &&
      forall other :: other != id ==> CardFormat(r.productFormats, other) == CardFormat(s.productFormats, other)
    ensures Consistent(s) ==> Consistent(r)
  {
    if s.selectedProduct.Some? then
      var id := s.selectedProduct.value.id;
      PricingState(Some(s.selectedProduct.value.(format := newFormat)), s.productFormats[id := newFormat])
    else s
  }

  /** The inline edit button: the selection moves to the next format of the cycle. */
  function AfterFormatCycle(s: PricingState): (r: PricingState)
    requires s.selectedProduct.Some?
    ensures r.selectedProduct.Some? && r.selectedProduct.value.format == NextFormat(s.selectedProduct.value.format)
    ensures r.selectedProduct.value.format != s.selectedProduct.value.format
    ensures r.selectedProduct.value == s.selectedProduct.value.(format := NextFormat(s.selectedProduct.value.format))
    ensures r.productFormats == s.productFormats[s.selectedProduct.value.id := NextFormat(s.selectedProduct.value.format)]
    ensures Consistent(s) ==> Consistent(r)
  {
    AfterUpdateProductFormat(s, NextFormat(s.selectedProduct.value.format))
  }

  /** The "Désélectionner" button: no selection, formats untouched. */
  function AfterDeselect(s: PricingState): (r: PricingState)
    ensures r.selectedProduct.None? && r.productFormats == s.productFormats
    ensures Consistent(r)
  {
    s.(selectedProduct := None)
  }

  /** The price shown next to "Prix:": the selected plan's own price. */
  function DisplayedPrice(s: PricingState): (price: Option<int>)
    ensures price.Some? <==> s.selectedProduct.Some?
    ensures FromCatalog(s) && price.Some? ==> price.value in {900, 1700, 2300}
  {
    if s.selectedProduct.Some? then Some(s.selectedProduct.value.price) else None
  }

  // ---------------------------------------------------------------------------
  // Sequences of user actions
  // ---------------------------------------------------------------------------

  /** A user action on the page; `SelectPlan` is only ever given an offered plan. */
  datatype Action =
    | SelectPlan(plan: Plan)
    | ChangeCardFormat(planId: string, format: Format)
    | CycleFormat
    | Deselect

  function Step(s: PricingState, a: Action): PricingState {
    match a
    case SelectPlan(plan) => AfterSelect(s, plan)
    case ChangeCardFormat(planId, format) => AfterFormatChange(s, planId, format)
    case CycleFormat => if s.selectedProduct.Some? then AfterFormatCycle(s) else s
    case Deselect => AfterDeselect(s)
  }

  function Run(s: PricingState, actions: seq<Action>): PricingState
    decreases |actions|
  {
    if actions == [] then s else Run(Step(s, actions[0]), actions[1..])
  }

  predicate OfferedPlansOnly(actions: seq<Action>) {
    forall i :: 0 <= i < |actions| ==> actions[i].SelectPlan? ==> actions[i].plan in PricingPlans
  }

  /**
    Whatever the user does, starting from any consistent state, the selection
    keeps showing its card's format and remains one of the offered plans.
   */
  lemma {:induction false} RunPreservesConsistency(s: PricingState, actions: seq<Action>)
    requires Consistent(s) && OfferedPlansOnly(actions)
    ensures Consistent(Run(s, actions))
    decreases |actions|
  {
    if actions != [] {
      assert Consistent(Step(s, actions[0]));
      RunPreservesConsistency(Step(s, actions[0]), actions[1..]);
    }
  }

  /** Selecting a plan twice from a state where it is not selected clears the selection. */
  lemma SelectTwiceClears(s: PricingState, plan: Plan)
    requires !IsSelected(s, plan.id)
    ensures AfterSelect(AfterSelect(s, plan), plan) == s.(selectedProduct := None)
  {
  }

  /** Selecting the 900€ plan and then the 2300€ plan shows 2300€: selections replace, they do not add up. */
  lemma SecondSelectionReplacesFirst()
    ensures var s := Run(PricingState(None, map[]), [SelectPlan(PricingPlans[0]), SelectPlan(PricingPlans[2])]);
      s.selectedProduct == Some(SelectedProduct("premium", "10 vidéos", 2300, MicroTrottoir)) &&
      DisplayedPrice(s) == Some(2300)
  {
    var s0 := PricingState(None, map[]);
    var s1 := AfterSelect(s0, PricingPlans[0]);
    assert Run(s0, [SelectPlan(PricingPlans[0]), SelectPlan(PricingPlans[2])]) == Run(s1, [SelectPlan(PricingPlans[2])]);
  }

  // ---------------------------------------------------------------------------
  // The component
  // ---------------------------------------------------------------------------

  class PricingContent {
    var selectedProduct: Option<SelectedProduct>
    var productFormats: map<string, Format>

    function State(): PricingState
      reads this
    {
      PricingState(selectedProduct, productFormats)
    }

    ghost predicate Valid()
      reads this
    {
      Consistent(State())
    }

    /** The page opens with nothing selected and no format chosen on any card. */
    constructor ()
      ensures Valid()
      ensures selectedProduct == None && productFormats == map[]
    {
      selectedProduct := None;
      productFormats := map[];
    }

    method HandleProductSelect(plan: Plan)
      requires Valid() && plan in PricingPlans
      modifies this
      ensures Valid()
      ensures State() == AfterSelect(old(State()), plan)
      ensures productFormats == old(productFormats)
    {
      var format := CardFormat(productFormats, plan.id);
      var isCurrentlySelected := selectedProduct.Some? && selectedProduct.value.id == plan.id;
      if isCurrentlySelected {
        selectedProduct := None;
      } else {
        selectedProduct := Some(SelectedProduct(plan.id, plan.title, plan.price, format));
      }
    }

    method HandleFormatChange(planId: string, format: Format)
      requires Valid()
      modifies this
      ensures Valid()
      ensures State() == AfterFormatChange(old(State()), planId, format)
      ensures productFormats == old(productFormats)[planId := format]
    {
      productFormats := productFormats[planId := format];
      if selectedProduct.Some? && selectedProduct.value.id == planId {
        selectedProduct := Some(selectedProduct.value.(format := format));
      }
    }

    method UpdateProductFormat(newFormat: Format)
      requires Valid()
      modifies this
      ensures Valid()
      ensures State() == AfterUpdateProductFormat(old(State()), newFormat)
      ensures old(selectedProduct).None? ==> selectedProduct == old(selectedProduct) && productFormats == old(productFormats)
    {
      if selectedProduct.Some? {
        var id := selectedProduct.value.id;
        selectedProduct := Some(selectedProduct.value.(format := newFormat));
        productFormats := productFormats[id := newFormat];
      }
    }

    /** The edit button of the selection panel, shown only while a plan is selected. */
    method CycleFormat()
      requires Valid() && selectedProduct.Some?
      modifies this
      ensures Valid()
      ensures State() == AfterFormatCycle(old(State()))
    {
      var newFormat := NextFormat(selectedProduct.value.format);
      UpdateProductFormat(newFormat);
    }

    method Deselect()
      requires Valid()
      modifies this
      ensures Valid()
      ensures State() == AfterDeselect(old(State()))
      ensures selectedProduct == None && productFormats == old(productFormats)
    {
      selectedProduct := None;
    }
  }
}
