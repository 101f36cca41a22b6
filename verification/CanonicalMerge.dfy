/**
 * Merging and splitting canonical products. The catalogue is a graph of products, their variants,
 * vendors' offers and the offers' own variants; merge and split rewrite it, match review and match
 * confirmation add links to it, and an offer must never span two products.
 */
module CanonicalMerge {
  import opened Common

  datatype Status = Draft | PendingReview | Published | Archived | Merged

  datatype Product = Product(status: Status, mergedInto: Option<Id>)

  /** Structural attributes, compared as the database compares JSON: by content. */
  type Attributes = map<string, string>

  datatype Variant = Variant(product: Id, attributes: Attributes, mergedInto: Option<Id>)

  datatype Proposal = NoProposal | Pending(variant: Id) | Confirmed(variant: Id) | Rejected(variant: Id)

  /** One variant of a vendor's offer; `link` is the canonical variant it is matched to. */
  datatype Item = Item(offer: Id, link: Option<Id>, proposal: Proposal)

  datatype Review = Undecided | Approved | Declined

  datatype Candidate = Candidate(item: Id, variant: Id, review: Review)

  /**
   * `offers` gives each vendor offer's canonical product, if it has one. `merges` is a history
   * variable, the merged-away products in order; no operation reads it.
   */
  datatype Catalog = Catalog(
    products: map<Id, Product>,
    variants: map<Id, Variant>,
    offers: map<Id, Option<Id>>,
    items: map<Id, Item>,
    candidates: map<Id, Candidate>,
    merges: seq<Id>)

  datatype CatalogError =
    | SameProduct | ProductNotFound | SurvivorMerged | LoserMerged | VariantUnmatched
    | NothingSelected | SourceMerged | VariantNotInSource | MovesAllVariants | WouldSpanOffer
    | CandidateNotFound | AlreadyDecided | NoPendingProposal | ConflictsWithOffer
    | IllegalTransition | NoVariants

  // ---- reading the graph

  function VariantsOf(c: Catalog, p: Id): set<Id>
  {
    set v | v in c.variants && c.variants[v].product == p
  }

  function OffersOf(c: Catalog, p: Id): set<Id>
  {
    set o | o in c.offers && c.offers[o] == Some(p)
  }

  /** The offers with an item linked to a variant in `vs`. */
  function OffersLinkedTo(c: Catalog, vs: set<Id>): set<Id>
  {
    set i | i in c.items && c.items[i].link.Some? && c.items[i].link.value in vs :: c.items[i].offer
  }

  /** The survivor's variants with exactly the attributes of `v`. */
  function Matches(c: Catalog, survivor: Id, v: Id): set<Id>
    requires v in c.variants
  {
    set s | s in c.variants && c.variants[s].product == survivor && c.variants[s].attributes == c.variants[v].attributes
  }

  ghost function Only(s: set<Id>): (x: Id)
    requires s != {}
    ensures x in s
  {
    var x :| x in s;
    x
  }

  predicate AllMatched(c: Catalog, loser: Id, survivor: Id)
  {
    forall v | v in VariantsOf(c, loser) :: |Matches(c, survivor, v)| == 1
  }

  ghost function Pairing(c: Catalog, loser: Id, survivor: Id): map<Id, Id>
    requires AllMatched(c, loser, survivor)
  {
    map v | v in VariantsOf(c, loser) :: Only(Matches(c, survivor, v))
  }

  // ---- merge

  function MarkMerged(variants: map<Id, Variant>, pairing: map<Id, Id>): map<Id, Variant>
  {
    map v | v in variants :: if v in pairing then variants[v].(mergedInto := Some(pairing[v])) else variants[v]
  }

  function Repoint(items: map<Id, Item>, pairing: map<Id, Id>): map<Id, Item>
  {
    map i | i in items :: if items[i].link.Some? && items[i].link.value in pairing
                          then items[i].(link := Some(pairing[items[i].link.value])) else items[i]
  }

  function PointOffers(offers: map<Id, Option<Id>>, moved: set<Id>, p: Id): map<Id, Option<Id>>
  {
    map o | o in offers :: if o in moved then Some(p) else offers[o]
  }

  function MergeWith(c: Catalog, loser: Id, survivor: Id, pairing: map<Id, Id>): Catalog
  {
    Catalog(
      c.products[loser := Product(Merged, Some(survivor))],
      MarkMerged(c.variants, pairing),
      PointOffers(c.offers, OffersLinkedTo(c, VariantsOf(c, loser) + VariantsOf(c, survivor)), survivor),
      Repoint(c.items, pairing),
      c.candidates,
      c.merges + [loser])
  }

  ghost function MergeStep(c: Catalog, loser: Id, survivor: Id): Result<Catalog, CatalogError>
  {
    if loser == survivor then Err(SameProduct)
    else if survivor !in c.products || loser !in c.products then Err(ProductNotFound)
    else if c.products[survivor].status == Merged then Err(SurvivorMerged)
    else if c.products[loser].status == Merged then Err(LoserMerged)
    else if !AllMatched(c, loser, survivor) then Err(VariantUnmatched)
    else Ok(MergeWith(c, loser, survivor, Pairing(c, loser, survivor)))
  }

  // ---- split

  function SetOf(s: seq<Id>): set<Id>
  {
    set n | 0 <= n < |s| :: s[n]
  }

  /** Offers that would end up with links to both sides. */
  function SpanningOffers(c: Catalog, source: Id, moving: set<Id>): set<Id>
  {
    OffersLinkedTo(c, VariantsOf(c, source) * moving) * OffersLinkedTo(c, VariantsOf(c, source) - moving)
  }

  function MoveVariants(variants: map<Id, Variant>, moving: set<Id>, p: Id): map<Id, Variant>
  {
    map v | v in variants :: if v in moving then variants[v].(product := p) else variants[v]
  }

  /** `created` is the id of the new product. The selection is a list; its length is what is compared. */
  function SplitStep(c: Catalog, source: Id, selected: seq<Id>, created: Id): Result<Catalog, CatalogError>
  {
    if selected == [] then Err(NothingSelected)
    else if source !in c.products then Err(ProductNotFound)
    else if c.products[source].status == Merged then Err(SourceMerged)
    else if !(SetOf(selected) <= VariantsOf(c, source)) then Err(VariantNotInSource)
    else if |selected| == |VariantsOf(c, source)| then Err(MovesAllVariants)
    else if SpanningOffers(c, source, SetOf(selected)) != {} then Err(WouldSpanOffer)
    else Ok(c.(
      products := c.products[created := Product(Draft, None)],
      variants := MoveVariants(c.variants, SetOf(selected), created),
      offers := PointOffers(c.offers, OffersLinkedTo(c, SetOf(selected)), created)))
  }

  // ---- linking

  /** The rule both match review and match confirmation follow when an owner accepts `v` for item `i`. */
  function Link(c: Catalog, i: Id, v: Id): Result<Catalog, CatalogError>
    requires i in c.items && v in c.variants && c.items[i].offer in c.offers
  {
    var o := c.items[i].offer;
    var p := c.variants[v].product;
    if c.offers[o].Some? && c.offers[o].value != p then Err(ConflictsWithOffer)
    else Ok(c.(items := c.items[i := c.items[i].(link := Some(v))],
               offers := if c.offers[o].None? then c.offers[o := Some(p)] else c.offers))
  }

  /** Approving one candidate declines every other open candidate of the same item. */
  function DecideCandidates(cs: map<Id, Candidate>, chosen: Id, item: Id): map<Id, Candidate>
  {
    map k | k in cs :: if k == chosen then cs[k].(review := Approved)
                       else if cs[k].item == item && cs[k].review == Undecided then cs[k].(review := Declined)
                       else cs[k]
  }

  function DecideStep(c: Catalog, item: Id, candidate: Id, approve: bool): Result<Catalog, CatalogError>
    requires RefsOk(c) && item in c.items
  {
    if candidate !in c.candidates || c.candidates[candidate].item != item then Err(CandidateNotFound)
    else if c.candidates[candidate].review != Undecided then Err(AlreadyDecided)
    else if !approve then
      Ok(c.(candidates := c.candidates[candidate := c.candidates[candidate].(review := Declined)]))
    else
      match Link(c, item, c.candidates[candidate].variant)
      case Err(e) => Err(e)
      case Ok(linked) => Ok(linked.(candidates := DecideCandidates(c.candidates, candidate, item)))
  }

  function ConfirmMatchStep(c: Catalog, item: Id, confirm: bool): Result<Catalog, CatalogError>
    requires RefsOk(c) && item in c.items
  {
    if !c.items[item].proposal.Pending? then Err(NoPendingProposal)
    else
      var v := c.items[item].proposal.variant;
      if !confirm then Ok(c.(items := c.items[item := c.items[item].(proposal := Rejected(v))]))
      else
        match Link(c, item, v)
        case Err(e) => Err(e)
        case Ok(linked) => Ok(linked.(items := linked.items[item := linked.items[item].(proposal := Confirmed(v))]))
  }

  // ---- status

  /** Merged appears nowhere: it is neither entered nor left by a transition. */
  function Transitions(from: Status): set<Status>
  {
    match from
    case Draft => {PendingReview, Archived}
    case PendingReview => {Published, Draft}
    case Published => {Archived}
    case Archived => {Published}
    case Merged => {}
  }

  /** `unrestricted` says that neither the product nor its category is restricted. */
  function TransitionStep(c: Catalog, p: Id, to: Status, unrestricted: bool): Result<Catalog, CatalogError>
    requires p in c.products
  {
    if to !in Transitions(c.products[p].status) then Err(IllegalTransition)
    else if to == PendingReview && VariantsOf(c, p) == {} then Err(NoVariants)
    else if to == Published && !unrestricted then Err(IllegalTransition)
    else Ok(c.(products := c.products[p := c.products[p].(status := to)]))
  }

  // ---- what every reachable catalogue satisfies

  predicate RefsOk(c: Catalog)
  {
    && (forall v | v in c.variants :: c.variants[v].product in c.products)
    && (forall i | i in c.items :: c.items[i].offer in c.offers
          && (c.items[i].proposal != NoProposal ==> c.items[i].proposal.variant in c.variants))
    && (forall k | k in c.candidates :: c.candidates[k].item in c.items && c.candidates[k].variant in c.variants)
  }

  /** An offer's linked variants all belong to the offer's own product. */
  predicate NoSpan(c: Catalog)
  {
    forall i | i in c.items && c.items[i].link.Some? ::
      && c.items[i].link.value in c.variants && c.items[i].offer in c.offers
      && c.offers[c.items[i].offer] == Some(c.variants[c.items[i].link.value].product)
  }

  /** An offer has a product only through one of its items. */
  predicate OffersLinked(c: Catalog)
  {
    forall o | o in c.offers && c.offers[o].Some? :: o in OffersLinkedTo(c, VariantsOf(c, c.offers[o].value))
  }

  predicate NoRepeats(s: seq<Id>)
  {
    forall m, n | 0 <= m < n < |s| :: s[m] != s[n]
  }

  /** Each merged product points to one that was not merged yet at that moment. */
  predicate ProductChainsOk(c: Catalog)
  {
    && NoRepeats(c.merges)
    && (forall p | p in c.products :: (c.products[p].status == Merged <==> c.products[p].mergedInto.Some?)
          && (c.products[p].status == Merged <==> p in c.merges))
    && (forall n | 0 <= n < |c.merges| :: c.merges[n] in c.products && c.products[c.merges[n]].mergedInto.Some?
          && c.products[c.merges[n]].mergedInto.value in c.products
          && c.products[c.merges[n]].mergedInto.value !in c.merges[..n + 1])
  }

  predicate VariantChainsOk(c: Catalog)
  {
    && (forall v | v in c.variants && c.variants[v].mergedInto.Some? ::
          c.variants[v].mergedInto.value in c.variants && c.variants[v].product in c.merges)
    && (forall v, n | v in c.variants && c.variants[v].mergedInto.Some? && 0 <= n < |c.merges|
          && c.merges[n] == c.variants[v].product ::
          c.variants[c.variants[v].mergedInto.value].product !in c.merges[..n + 1])
  }

  predicate CatalogInv(c: Catalog)
  {
    RefsOk(c) && NoSpan(c) && OffersLinked(c) && ProductChainsOk(c) && VariantChainsOk(c)
  }

  // ---- merge keeps the invariant

  lemma PairingPairs(c: Catalog, loser: Id, survivor: Id)
    requires AllMatched(c, loser, survivor)
    ensures var pairing := Pairing(c, loser, survivor);
            pairing.Keys == VariantsOf(c, loser)
            && forall v | v in pairing :: pairing[v] in c.variants && c.variants[pairing[v]].product == survivor
                 && c.variants[pairing[v]].attributes == c.variants[v].attributes
  {
    forall v | v in VariantsOf(c, loser) ensures Only(Matches(c, survivor, v)) in Matches(c, survivor, v) {
    }
  }

  /** What `MergeStep` needs of a pairing. */
  predicate Pairs(c: Catalog, loser: Id, survivor: Id, pairing: map<Id, Id>)
  {
    && pairing.Keys == VariantsOf(c, loser)
    && forall v | v in pairing :: pairing[v] in c.variants && c.variants[pairing[v]].product == survivor
         && c.variants[pairing[v]].attributes == c.variants[v].attributes
  }

  predicate Mergeable(c: Catalog, loser: Id, survivor: Id, pairing: map<Id, Id>)
  {
    && loser != survivor && survivor in c.products && loser in c.products
    && c.products[survivor].status != Merged && c.products[loser].status != Merged
    && Pairs(c, loser, survivor, pairing)
  }

  lemma MergeKeepsNoSpan(c: Catalog, loser: Id, survivor: Id, pairing: map<Id, Id>)
    requires RefsOk(c) && NoSpan(c) && Mergeable(c, loser, survivor, pairing)
    ensures NoSpan(MergeWith(c, loser, survivor, pairing))
  {
    var after := MergeWith(c, loser, survivor, pairing);
    var touched := OffersLinkedTo(c, VariantsOf(c, loser) + VariantsOf(c, survivor));
    forall i | i in after.items && after.items[i].link.Some?
      ensures after.items[i].link.value in after.variants && after.items[i].offer in after.offers
              && after.offers[after.items[i].offer] == Some(after.variants[after.items[i].link.value].product)
    {
      var v := c.items[i].link.value;
      if v in pairing || c.variants[v].product == survivor {
        assert c.items[i].offer in touched;
      } else {
        assert after.variants[v].product == c.variants[v].product;
        NotTouched(c, i, loser, survivor);
      }
    }
  }

  /** An offer whose product is neither of the two is not among the offers a merge moves. */
  lemma NotTouched(c: Catalog, i: Id, loser: Id, survivor: Id)
    requires NoSpan(c) && i in c.items && c.items[i].link.Some?
    requires c.variants[c.items[i].link.value].product != loser && c.variants[c.items[i].link.value].product != survivor
    ensures c.items[i].offer !in OffersLinkedTo(c, VariantsOf(c, loser) + VariantsOf(c, survivor))
  {
    var vs := VariantsOf(c, loser) + VariantsOf(c, survivor);
    if c.items[i].offer in OffersLinkedTo(c, vs) { LinkedOffersHaveProduct(c, vs, c.items[i].offer); }
  }

  lemma LinkedOffersHaveProduct(c: Catalog, vs: set<Id>, o: Id)
    requires NoSpan(c)
    requires o in OffersLinkedTo(c, vs)
    ensures o in c.offers && exists v :: v in vs && v in c.variants && c.offers[o] == Some(c.variants[v].product)
  {
  }

  lemma MergeKeepsOffersLinked(c: Catalog, loser: Id, survivor: Id, pairing: map<Id, Id>)
    requires RefsOk(c) && NoSpan(c) && OffersLinked(c) && Mergeable(c, loser, survivor, pairing)
    ensures OffersLinked(MergeWith(c, loser, survivor, pairing))
  {
    var after := MergeWith(c, loser, survivor, pairing);
    forall o | o in after.offers && after.offers[o].Some?
      ensures o in OffersLinkedTo(after, VariantsOf(after, after.offers[o].value))
    {
      var touched := OffersLinkedTo(c, VariantsOf(c, loser) + VariantsOf(c, survivor));
      if o in touched {
        var i :| i in c.items && c.items[i].link.Some? && c.items[i].offer == o
                 && c.items[i].link.value in VariantsOf(c, loser) + VariantsOf(c, survivor);
        assert after.items[i].offer == o && after.items[i].link.value in VariantsOf(after, survivor);
      } else {
        var i :| i in c.items && c.items[i].link.Some? && c.items[i].offer == o
                 && c.items[i].link.value in VariantsOf(c, c.offers[o].value);
        assert c.items[i].link.value !in pairing;
        assert after.items[i] == c.items[i] && after.items[i].link.value in VariantsOf(after, after.offers[o].value);
      }
    }
  }

  lemma MergeKeepsProductChains(c: Catalog, loser: Id, survivor: Id, pairing: map<Id, Id>)
    requires ProductChainsOk(c) && Mergeable(c, loser, survivor, pairing)
    ensures ProductChainsOk(MergeWith(c, loser, survivor, pairing))
  {
    var after := MergeWith(c, loser, survivor, pairing);
    forall n | 0 <= n < |after.merges|
      ensures after.merges[n] in after.products && after.products[after.merges[n]].mergedInto.Some?
              && after.products[after.merges[n]].mergedInto.value in after.products
              && after.products[after.merges[n]].mergedInto.value !in after.merges[..n + 1]
    {
      if n < |c.merges| {
        assert after.merges[..n + 1] == c.merges[..n + 1];
        assert c.merges[n] in c.merges;
      } else {
        assert after.merges[..n + 1] == c.merges + [loser];
      }
    }
  }

  predicate VariantChainAt(c: Catalog, v: Id, n: int)
  {
    v in c.variants && c.variants[v].mergedInto.Some? && 0 <= n < |c.merges| && c.merges[n] == c.variants[v].product ==>
      c.variants[v].mergedInto.value in c.variants
      && c.variants[c.variants[v].mergedInto.value].product !in c.merges[..n + 1]
  }

  lemma MergeKeepsVariantChainAt(c: Catalog, loser: Id, survivor: Id, pairing: map<Id, Id>, v: Id, n: int)
    requires RefsOk(c) && ProductChainsOk(c) && VariantChainsOk(c) && Mergeable(c, loser, survivor, pairing)
    ensures VariantChainAt(MergeWith(c, loser, survivor, pairing), v, n)
  {
    var merges := c.merges + [loser];
    assert loser !in c.merges && survivor !in c.merges;
    if v in c.variants && 0 <= n < |merges| && merges[n] == c.variants[v].product {
      if n < |c.merges| {
        assert merges[..n + 1] == c.merges[..n + 1];
        assert c.merges[n] in c.merges;
        assert v !in pairing;
      } else {
        assert merges[..n + 1] == merges;
        assert v in pairing;
      }
    }
  }

  lemma MergeKeepsVariantChains(c: Catalog, loser: Id, survivor: Id, pairing: map<Id, Id>)
    requires RefsOk(c) && ProductChainsOk(c) && VariantChainsOk(c) && Mergeable(c, loser, survivor, pairing)
    ensures VariantChainsOk(MergeWith(c, loser, survivor, pairing))
  {
    var after := MergeWith(c, loser, survivor, pairing);
    forall v | v in after.variants && after.variants[v].mergedInto.Some?
      ensures after.variants[v].mergedInto.value in after.variants && after.variants[v].product in after.merges
    {
    }
    forall v, n ensures VariantChainAt(after, v, n) {
      MergeKeepsVariantChainAt(c, loser, survivor, pairing, v, n);
    }
    VariantChainsFrom(after);
  }

  lemma VariantChainsFrom(c: Catalog)
    requires forall v | v in c.variants && c.variants[v].mergedInto.Some? ::
               c.variants[v].mergedInto.value in c.variants && c.variants[v].product in c.merges
    requires forall v, n :: VariantChainAt(c, v, n)
    ensures VariantChainsOk(c)
  {
    forall v, n | v in c.variants && c.variants[v].mergedInto.Some? && 0 <= n < |c.merges|
      && c.merges[n] == c.variants[v].product
      ensures c.variants[c.variants[v].mergedInto.value].product !in c.merges[..n + 1]
    {
      assert VariantChainAt(c, v, n);
    }
  }

  lemma MergeKeepsInv(c: Catalog, loser: Id, survivor: Id)
    requires CatalogInv(c) && MergeStep(c, loser, survivor).Ok?
    ensures CatalogInv(MergeStep(c, loser, survivor).value)
  {
    PairingPairs(c, loser, survivor);
    var pairing := Pairing(c, loser, survivor);
    MergeKeepsNoSpan(c, loser, survivor, pairing);
    MergeKeepsOffersLinked(c, loser, survivor, pairing);
    MergeKeepsProductChains(c, loser, survivor, pairing);
    MergeKeepsVariantChains(c, loser, survivor, pairing);
    hide NoSpan, OffersLinked, ProductChainsOk, VariantChainsOk, Pairing;
    assert RefsOk(MergeWith(c, loser, survivor, pairing));
  }

  // ---- split keeps the invariant

  predicate Splittable(c: Catalog, source: Id, moving: set<Id>, created: Id)
  {
    && source in c.products && c.products[source].status != Merged && created !in c.products
    && moving <= VariantsOf(c, source) && SpanningOffers(c, source, moving) == {}
  }

  function SplitWith(c: Catalog, moving: set<Id>, created: Id): Catalog
  {
    c.(products := c.products[created := Product(Draft, None)],
       variants := MoveVariants(c.variants, moving, created),
       offers := PointOffers(c.offers, OffersLinkedTo(c, moving), created))
  }

  lemma SplitMovesWholeOffers(c: Catalog, source: Id, moving: set<Id>, created: Id, i: Id)
    requires NoSpan(c) && Splittable(c, source, moving, created) && i in c.items && c.items[i].link.Some?
    ensures c.items[i].offer in OffersLinkedTo(c, moving) <==> c.items[i].link.value in moving
  {
    var o, v := c.items[i].offer, c.items[i].link.value;
    assert VariantsOf(c, source) * moving == moving;
    if o in OffersLinkedTo(c, moving) {
      var j :| j in c.items && c.items[j].link.Some? && c.items[j].link.value in moving && c.items[j].offer == o;
      assert c.variants[v].product == c.variants[c.items[j].link.value].product == source;
      assert v !in moving ==> o in OffersLinkedTo(c, VariantsOf(c, source) - moving);
      assert o !in SpanningOffers(c, source, moving);
    }
  }

  lemma SplitKeepsNoSpan(c: Catalog, source: Id, moving: set<Id>, created: Id)
    requires RefsOk(c) && NoSpan(c) && Splittable(c, source, moving, created)
    ensures NoSpan(SplitWith(c, moving, created))
  {
    forall i | i in c.items && c.items[i].link.Some?
      ensures c.items[i].offer in OffersLinkedTo(c, moving) <==> c.items[i].link.value in moving
    {
      SplitMovesWholeOffers(c, source, moving, created, i);
    }
  }

  lemma SplitKeepsOffersLinked(c: Catalog, source: Id, moving: set<Id>, created: Id)
    requires RefsOk(c) && NoSpan(c) && OffersLinked(c) && Splittable(c, source, moving, created)
    ensures OffersLinked(SplitWith(c, moving, created))
  {
    var after := SplitWith(c, moving, created);
    forall o | o in after.offers && after.offers[o].Some?
      ensures o in OffersLinkedTo(after, VariantsOf(after, after.offers[o].value))
    {
      if o in OffersLinkedTo(c, moving) {
        var i :| i in c.items && c.items[i].link.Some? && c.items[i].offer == o && c.items[i].link.value in moving;
        assert after.items[i].link.value in VariantsOf(after, created);
      } else {
        var i :| i in c.items && c.items[i].link.Some? && c.items[i].offer == o
                 && c.items[i].link.value in VariantsOf(c, c.offers[o].value);
        SplitMovesWholeOffers(c, source, moving, created, i);
        assert after.items[i].link.value in VariantsOf(after, after.offers[o].value);
      }
    }
  }

  lemma SplitKeepsChains(c: Catalog, source: Id, moving: set<Id>, created: Id)
    requires RefsOk(c) && ProductChainsOk(c) && VariantChainsOk(c) && Splittable(c, source, moving, created)
    ensures ProductChainsOk(SplitWith(c, moving, created)) && VariantChainsOk(SplitWith(c, moving, created))
  {
    var after := SplitWith(c, moving, created);
    assert created !in c.merges by {
      if n :| 0 <= n < |c.merges| && c.merges[n] == created { assert c.merges[n] in c.products; }
    }
    assert source !in c.merges;
    forall v | v in after.variants && after.variants[v].mergedInto.Some?
      ensures v !in moving && after.variants[v].product == c.variants[v].product
    {
      assert c.variants[v].product in c.merges;
    }
  }

  lemma SplitKeepsInv(c: Catalog, source: Id, selected: seq<Id>, created: Id)
    requires CatalogInv(c) && created !in c.products && SplitStep(c, source, selected, created).Ok?
    ensures CatalogInv(SplitStep(c, source, selected, created).value)
  {
    var moving := SetOf(selected);
    SplitKeepsNoSpan(c, source, moving, created);
    SplitKeepsOffersLinked(c, source, moving, created);
    SplitKeepsChains(c, source, moving, created);
    hide NoSpan, OffersLinked, ProductChainsOk, VariantChainsOk;
    assert RefsOk(SplitWith(c, moving, created));
  }

  // ---- linking and the rest keep it

  /** `after` may differ from `c` only in offers, items' links and proposals, and candidates. */
  predicate SameProducts(c: Catalog, after: Catalog)
  {
    after.products == c.products && after.variants == c.variants && after.merges == c.merges
  }

  lemma SameProductsKeepChains(c: Catalog, after: Catalog)
    requires SameProducts(c, after) && ProductChainsOk(c) && VariantChainsOk(c)
    ensures ProductChainsOk(after) && VariantChainsOk(after)
  {
  }

  lemma LinkKeepsGraph(c: Catalog, i: Id, v: Id)
    requires RefsOk(c) && NoSpan(c) && OffersLinked(c) && i in c.items && v in c.variants && Link(c, i, v).Ok?
    ensures var after := Link(c, i, v).value;
            RefsOk(after) && NoSpan(after) && OffersLinked(after) && SameProducts(c, after)
  {
    var after := Link(c, i, v).value;
    var o := c.items[i].offer;
    forall j | j in c.items && j != i && c.items[j].link.Some? && c.items[j].offer == o
      ensures c.offers[o].Some?
    {
    }
    forall q | q in after.offers && after.offers[q].Some?
      ensures q in OffersLinkedTo(after, VariantsOf(after, after.offers[q].value))
    {
      if q == o {
        assert after.items[i].link.value in VariantsOf(after, after.offers[q].value);
      } else {
        var j :| j in c.items && c.items[j].link.Some? && c.items[j].offer == q
                 && c.items[j].link.value in VariantsOf(c, c.offers[q].value);
        assert after.items[j].link.value in VariantsOf(after, after.offers[q].value);
      }
    }
  }

  lemma CandidatesKeepGraph(c: Catalog, cs: map<Id, Candidate>)
    requires RefsOk(c) && NoSpan(c) && OffersLinked(c)
    requires forall k | k in cs :: k in c.candidates && cs[k].(review := c.candidates[k].review) == c.candidates[k]
    ensures var after := c.(candidates := cs); RefsOk(after) && NoSpan(after) && OffersLinked(after)
  {
    var after := c.(candidates := cs);
    assert forall p :: VariantsOf(after, p) == VariantsOf(c, p);
    assert forall vs :: OffersLinkedTo(after, vs) == OffersLinkedTo(c, vs);
  }

  lemma DecideKeepsInv(c: Catalog, item: Id, candidate: Id, approve: bool)
    requires CatalogInv(c) && item in c.items && DecideStep(c, item, candidate, approve).Ok?
    ensures CatalogInv(DecideStep(c, item, candidate, approve).value)
  {
    hide NoSpan, OffersLinked, ProductChainsOk, VariantChainsOk;
    var after := DecideStep(c, item, candidate, approve).value;
    if approve {
      LinkKeepsGraph(c, item, c.candidates[candidate].variant);
      CandidatesKeepGraph(Link(c, item, c.candidates[candidate].variant).value, after.candidates);
    } else {
      CandidatesKeepGraph(c, after.candidates);
    }
    SameProductsKeepChains(c, after);
  }

  lemma ConfirmMatchKeepsInv(c: Catalog, item: Id, confirm: bool)
    requires CatalogInv(c) && item in c.items && ConfirmMatchStep(c, item, confirm).Ok?
    ensures CatalogInv(ConfirmMatchStep(c, item, confirm).value)
  {
    var after := ConfirmMatchStep(c, item, confirm).value;
    var v := c.items[item].proposal.variant;
    if confirm {
      LinkKeepsGraph(c, item, v);
      ProposalKeepsGraph(Link(c, item, v).value, item, Confirmed(v));
    } else {
      ProposalKeepsGraph(c, item, Rejected(v));
    }
    SameProductsKeepChains(c, after);
  }

  lemma ProposalKeepsGraph(c: Catalog, item: Id, proposal: Proposal)
    requires RefsOk(c) && NoSpan(c) && OffersLinked(c) && item in c.items
    requires proposal != NoProposal ==> proposal.variant in c.variants
    ensures var after := c.(items := c.items[item := c.items[item].(proposal := proposal)]);
            RefsOk(after) && NoSpan(after) && OffersLinked(after)
  {
    var after := c.(items := c.items[item := c.items[item].(proposal := proposal)]);
    forall vs: set<Id> ensures OffersLinkedTo(after, vs) == OffersLinkedTo(c, vs) {
      SameLinksSameOffers(c, after, vs);
      SameLinksSameOffers(after, c, vs);
    }
    forall p ensures VariantsOf(after, p) == VariantsOf(c, p) {
    }
  }

  lemma SameLinksSameOffers(c: Catalog, after: Catalog, vs: set<Id>)
    requires after.items.Keys == c.items.Keys
    requires forall i | i in c.items :: after.items[i].link == c.items[i].link && after.items[i].offer == c.items[i].offer
    ensures OffersLinkedTo(c, vs) <= OffersLinkedTo(after, vs)
  {
    forall o | o in OffersLinkedTo(c, vs) ensures o in OffersLinkedTo(after, vs) {
      var i :| i in c.items && c.items[i].link.Some? && c.items[i].link.value in vs && c.items[i].offer == o;
      assert after.items[i].link.value in vs;
    }
  }

  lemma TransitionKeepsInv(c: Catalog, p: Id, to: Status, unrestricted: bool)
    requires CatalogInv(c) && p in c.products && TransitionStep(c, p, to, unrestricted).Ok?
    ensures CatalogInv(TransitionStep(c, p, to, unrestricted).value)
    ensures c.products[p].status != Merged && to != Merged
  {
    var after := TransitionStep(c, p, to, unrestricted).value;
    assert forall q :: VariantsOf(after, q) == VariantsOf(c, q);
    assert forall vs :: OffersLinkedTo(after, vs) == OffersLinkedTo(c, vs);
  }

  // ---- what merge and split do to offers

  /** After a merge the survivor has both products' offers, the loser none, and every other product its own. */
  lemma MergeMovesOffers(c: Catalog, loser: Id, survivor: Id, p: Id)
    requires CatalogInv(c) && MergeStep(c, loser, survivor).Ok?
    ensures var after := MergeStep(c, loser, survivor).value;
            OffersOf(after, survivor) == OffersOf(c, survivor) + OffersOf(c, loser)
            && OffersOf(after, loser) == {}
            && (p != loser && p != survivor ==> OffersOf(after, p) == OffersOf(c, p))
            && after.offers.Keys == c.offers.Keys
  {
    var touched := OffersLinkedTo(c, VariantsOf(c, loser) + VariantsOf(c, survivor));
    forall o | o in c.offers
      ensures o in touched <==> c.offers[o] == Some(loser) || c.offers[o] == Some(survivor)
    {
      TouchedIffOfEither(c, loser, survivor, o);
    }
  }

  lemma TouchedIffOfEither(c: Catalog, loser: Id, survivor: Id, o: Id)
    requires NoSpan(c) && OffersLinked(c) && o in c.offers
    ensures o in OffersLinkedTo(c, VariantsOf(c, loser) + VariantsOf(c, survivor))
            <==> c.offers[o] == Some(loser) || c.offers[o] == Some(survivor)
  {
    var vs := VariantsOf(c, loser) + VariantsOf(c, survivor);
    if o in OffersLinkedTo(c, vs) { LinkedOffersHaveProduct(c, vs, o); }
    if c.offers[o] == Some(loser) || c.offers[o] == Some(survivor) {
      var i :| i in c.items && c.items[i].link.Some? && c.items[i].offer == o
               && c.items[i].link.value in VariantsOf(c, c.offers[o].value);
      assert c.items[i].link.value in vs;
    }
  }

  /** The structural attributes item `i` is matched to. */
  function ResolvedAttributes(c: Catalog, i: Id): Option<Attributes>
    requires NoSpan(c) && i in c.items
  {
    if c.items[i].link.Some? then Some(c.variants[c.items[i].link.value].attributes) else None
  }

  /** A merge leaves every item matched to the same attributes, on no merged product of the two. */
  lemma MergePreservesAttributes(c: Catalog, loser: Id, survivor: Id, i: Id)
    requires CatalogInv(c) && MergeStep(c, loser, survivor).Ok? && i in c.items
    ensures CatalogInv(MergeStep(c, loser, survivor).value)
    ensures var after := MergeStep(c, loser, survivor).value;
            after.items.Keys == c.items.Keys && after.items[i].offer == c.items[i].offer
            && ResolvedAttributes(after, i) == ResolvedAttributes(c, i)
            && (after.items[i].link.Some? ==> after.items[i].link.value !in VariantsOf(after, loser))
  {
    MergeKeepsInv(c, loser, survivor);
    PairingPairs(c, loser, survivor);
  }

  /** A split divides the source's offers between the two products and leaves every link and attribute alone. */
  lemma SplitPartitionsOffers(c: Catalog, source: Id, selected: seq<Id>, created: Id, p: Id)
    requires CatalogInv(c) && created !in c.products && SplitStep(c, source, selected, created).Ok?
    ensures var after := SplitStep(c, source, selected, created).value;
            OffersOf(c, source) == OffersOf(after, source) + OffersOf(after, created)
            && OffersOf(after, source) !! OffersOf(after, created)
            && OffersOf(after, created) == OffersLinkedTo(c, SetOf(selected))
            && (p != source && p != created ==> OffersOf(after, p) == OffersOf(c, p))
            && after.offers.Keys == c.offers.Keys && after.items == c.items
            && (forall v | v in c.variants :: v in after.variants && after.variants[v].attributes == c.variants[v].attributes)
            && VariantsOf(after, created) == SetOf(selected)
            && VariantsOf(after, source) == VariantsOf(c, source) - SetOf(selected)
  {
    var moving := SetOf(selected);
    forall o | o in OffersLinkedTo(c, moving) ensures o in c.offers && c.offers[o] == Some(source) {
      LinkedOffersHaveProduct(c, moving, o);
    }
    forall o | o in c.offers && c.offers[o].Some? ensures c.offers[o].value in c.products {
      var i :| i in c.items && c.items[i].link.Some? && c.items[i].offer == o
               && c.items[i].link.value in VariantsOf(c, c.offers[o].value);
    }
    forall v | v in c.variants ensures c.variants[v].product != created {
    }
  }

  lemma {:induction false} DistinctListIsAsLong(s: seq<Id>)
    ensures |SetOf(s)| <= |s| && (|SetOf(s)| == |s| <==> NoRepeats(s))
  {
    if s != [] {
      var n := |s| - 1;
      DistinctListIsAsLong(s[..n]);
      assert SetOf(s) == SetOf(s[..n]) + {s[n]};
      if s[n] in SetOf(s[..n]) {
        assert SetOf(s) == SetOf(s[..n]);
        var m :| 0 <= m < n && s[..n][m] == s[n];
        assert s[m] == s[n];
      } else {
        assert |SetOf(s)| == |SetOf(s[..n])| + 1;
        assert forall m | 0 <= m < n :: s[..n][m] in SetOf(s[..n]);
        assert NoRepeats(s[..n]) ==> NoRepeats(s);
        assert NoRepeats(s) ==> NoRepeats(s[..n]) by {
          assert forall m | 0 <= m < n :: s[..n][m] == s[m];
        }
      }
    }
  }

  /**
   * An accepted split leaves the source a variant exactly when the selection names fewer different
   * variants than the source has; a selection without repeats always does.
   */
  lemma SplitLeavesSomething(c: Catalog, source: Id, selected: seq<Id>, created: Id)
    requires SplitStep(c, source, selected, created).Ok?
    ensures VariantsOf(c, source) - SetOf(selected) != {} <==> |SetOf(selected)| != |VariantsOf(c, source)|
    ensures NoRepeats(selected) ==> VariantsOf(c, source) - SetOf(selected) != {}
  {
    DistinctListIsAsLong(selected);
    var all, moving := VariantsOf(c, source), SetOf(selected);
    assert all == (all - moving) + moving;
    assert |all| == |all - moving| + |moving|;
    if all - moving == {} { assert |all - moving| == 0; }
  }

  /**
   * The check compares the list's length: a selection that names every variant of the source is
   * accepted exactly when it names one of them twice, and the split then takes everything.
   */
  lemma SplitWithRepeatTakesAll(c: Catalog, source: Id, selected: seq<Id>, created: Id)
    requires source in c.products && c.products[source].status != Merged
    requires selected != [] && SetOf(selected) == VariantsOf(c, source)
    ensures SplitStep(c, source, selected, created).Ok? <==> !NoRepeats(selected)
    ensures VariantsOf(c, source) - SetOf(selected) == {}
  {
    DistinctListIsAsLong(selected);
    assert VariantsOf(c, source) - SetOf(selected) == {};
    assert OffersLinkedTo(c, {}) == {};
  }

  // ---- following merges

  /** How many merges came after the one that took `p`, plus one; zero for a product still standing. */
  function Rank(c: Catalog, p: Id): nat
  {
    RankIn(c.merges, p)
  }

  function RankIn(merges: seq<Id>, p: Id): nat
  {
    if merges == [] then 0
    else if merges[0] == p then |merges|
    else RankIn(merges[1..], p)
  }

  lemma {:induction false} RankAt(merges: seq<Id>, n: nat)
    requires NoRepeats(merges) && n < |merges|
    ensures RankIn(merges, merges[n]) == |merges| - n
  {
    if n > 0 { RankAt(merges[1..], n - 1); }
  }

  lemma {:induction false} RankAfter(merges: seq<Id>, n: nat, q: Id)
    requires n <= |merges| && q !in merges[..n]
    ensures RankIn(merges, q) <= |merges| - n
  {
    if n > 0 {
      assert merges[..n][0] == merges[0];
      assert merges[..n] == [merges[0]] + merges[1..][..n - 1];
      RankAfter(merges[1..], n - 1, q);
    } else if merges != [] {
      RankAfter(merges[1..], 0, q);
    }
  }

  lemma MergedIntoRanksLower(c: Catalog, p: Id)
    requires ProductChainsOk(c) && p in c.products && c.products[p].mergedInto.Some?
    ensures c.products[p].mergedInto.value in c.products && Rank(c, c.products[p].mergedInto.value) < Rank(c, p)
  {
    var n :| 0 <= n < |c.merges| && c.merges[n] == p;
    RankAt(c.merges, n);
    RankAfter(c.merges, n + 1, c.products[p].mergedInto.value);
  }

  /** Where following `mergedIntoId` ends: every chain stops at a product that is not merged away. */
  function Survivor(c: Catalog, p: Id): (r: Id)
    requires ProductChainsOk(c) && p in c.products
    ensures r in c.products && c.products[r].status != Merged
    ensures c.products[p].status != Merged ==> r == p
    decreases Rank(c, p)
  {
    if c.products[p].mergedInto.None? then p
    else
      MergedIntoRanksLower(c, p);
      Survivor(c, c.products[p].mergedInto.value)
  }

  lemma VariantMergedIntoRanksLower(c: Catalog, v: Id)
    requires ProductChainsOk(c) && VariantChainsOk(c) && v in c.variants && c.variants[v].mergedInto.Some?
    ensures c.variants[v].mergedInto.value in c.variants
    ensures Rank(c, c.variants[c.variants[v].mergedInto.value].product) < Rank(c, c.variants[v].product)
  {
    var n :| 0 <= n < |c.merges| && c.merges[n] == c.variants[v].product;
    RankAt(c.merges, n);
    RankAfter(c.merges, n + 1, c.variants[c.variants[v].mergedInto.value].product);
  }

  /** The same for variants: following `mergedIntoVariantId` ends at one that was never merged. */
  function SurvivingVariant(c: Catalog, v: Id): (r: Id)
    requires ProductChainsOk(c) && VariantChainsOk(c) && v in c.variants
    ensures r in c.variants && c.variants[r].mergedInto.None?
    decreases Rank(c, c.variants[v].product)
  {
    if c.variants[v].mergedInto.None? then v
    else
      VariantMergedIntoRanksLower(c, v);
      SurvivingVariant(c, c.variants[v].mergedInto.value)
  }

  // ---- every run

  datatype Op =
    | AddProduct(p: Id)
    | AddVariant(v: Id, product: Id, attributes: Attributes)
    | AddOffer(o: Id)
    | AddItem(i: Id, offer: Id, proposed: Option<Id>)
    | AddCandidate(k: Id, item: Id, variant: Id)
    | Merge(loser: Id, survivor: Id)
    | Split(source: Id, selected: seq<Id>, created: Id)
    | Decide(item: Id, candidate: Id, approve: bool)
    | ConfirmMatch(item: Id, confirm: bool)
    | Transition(product: Id, to: Status, unrestricted: bool)

  /** New rows have new ids and point at rows that exist. */
  predicate Enabled(c: Catalog, op: Op)
  {
    match op
    case AddProduct(p) => p !in c.products
    case AddVariant(v, p, _) => v !in c.variants && p in c.products
    case AddOffer(o) => o !in c.offers
    case AddItem(i, o, v) => i !in c.items && o in c.offers && (v.Some? ==> v.value in c.variants)
    case AddCandidate(k, i, v) => k !in c.candidates && i in c.items && v in c.variants
    case Merge(_, _) => true
    case Split(_, _, created) => created !in c.products
    case Decide(i, _, _) => i in c.items
    case ConfirmMatch(i, _) => i in c.items
    case Transition(p, _, _) => p in c.products
  }

  ghost function Apply(c: Catalog, op: Op): Result<Catalog, CatalogError>
    requires RefsOk(c) && Enabled(c, op)
  {
    match op
    case AddProduct(p) => Ok(c.(products := c.products[p := Product(Draft, None)]))
    case AddVariant(v, p, a) => Ok(c.(variants := c.variants[v := Variant(p, a, None)]))
    case AddOffer(o) => Ok(c.(offers := c.offers[o := None]))
    case AddItem(i, o, v) =>
      Ok(c.(items := c.items[i := Item(o, None, if v.Some? then Pending(v.value) else NoProposal)]))
    case AddCandidate(k, i, v) => Ok(c.(candidates := c.candidates[k := Candidate(i, v, Undecided)]))
    case Merge(loser, survivor) => MergeStep(c, loser, survivor)
    case Split(source, selected, created) => SplitStep(c, source, selected, created)
    case Decide(i, k, approve) => DecideStep(c, i, k, approve)
    case ConfirmMatch(i, confirm) => ConfirmMatchStep(c, i, confirm)
    case Transition(p, to, unrestricted) => TransitionStep(c, p, to, unrestricted)
  }

  /** A refused operation throws, and leaves everything alone. */
  ghost function Step(c: Catalog, op: Op): Catalog
    requires RefsOk(c) && Enabled(c, op)
  {
    match Apply(c, op)
    case Ok(after) => after
    case Err(_) => c
  }

  predicate IsAdd(op: Op)
  {
    op.AddProduct? || op.AddVariant? || op.AddOffer? || op.AddItem? || op.AddCandidate?
  }

  lemma AddKeepsGraph(c: Catalog, op: Op)
    requires CatalogInv(c) && Enabled(c, op) && IsAdd(op)
    ensures var after := Step(c, op); RefsOk(after) && NoSpan(after) && OffersLinked(after)
  {
    var after := Step(c, op);
    forall o | o in after.offers && after.offers[o].Some?
      ensures o in OffersLinkedTo(after, VariantsOf(after, after.offers[o].value))
    {
      var i :| i in c.items && c.items[i].link.Some? && c.items[i].offer == o
               && c.items[i].link.value in VariantsOf(c, c.offers[o].value);
      assert after.items[i] == c.items[i] && after.items[i].link.value in VariantsOf(after, after.offers[o].value);
    }
  }

  lemma AddKeepsChains(c: Catalog, op: Op)
    requires CatalogInv(c) && Enabled(c, op) && IsAdd(op)
    ensures ProductChainsOk(Step(c, op)) && VariantChainsOk(Step(c, op))
  {
    var after := Step(c, op);
    assert after.merges == c.merges;
    if op.AddProduct? {
      assert op.p !in c.merges by {
        if n :| 0 <= n < |c.merges| && c.merges[n] == op.p { assert c.merges[n] in c.products; }
      }
    } else {
      assert after.products == c.products;
    }
  }

  lemma StepKeepsInv(c: Catalog, op: Op)
    requires CatalogInv(c) && Enabled(c, op)
    ensures CatalogInv(Step(c, op))
  {
    hide NoSpan, OffersLinked, ProductChainsOk, VariantChainsOk;
    hide MergeStep, SplitStep, DecideStep, ConfirmMatchStep, TransitionStep;
    if Apply(c, op).Ok? {
      match op
      case Merge(loser, survivor) => MergeKeepsInv(c, loser, survivor);
      case Split(source, selected, created) => SplitKeepsInv(c, source, selected, created);
      case Decide(i, k, approve) => DecideKeepsInv(c, i, k, approve);
      case ConfirmMatch(i, confirm) => ConfirmMatchKeepsInv(c, i, confirm);
      case Transition(p, to, unrestricted) => TransitionKeepsInv(c, p, to, unrestricted);
      case _ =>
        AddKeepsGraph(c, op);
        AddKeepsChains(c, op);
    }
  }

  lemma MergeKeepsMerges(c: Catalog, loser: Id, survivor: Id, p: Id, v: Id)
    requires CatalogInv(c) && MergeStep(c, loser, survivor).Ok?
    ensures var after := MergeStep(c, loser, survivor).value;
            && (p in c.products && c.products[p].status == Merged ==>
                  p in after.products && after.products[p] == c.products[p])
            && (v in c.variants && c.variants[v].mergedInto.Some? ==>
                  v in after.variants && after.variants[v] == c.variants[v])
  {
    hide NoSpan, OffersLinked;
    PairingPairs(c, loser, survivor);
    assert v in c.variants && c.variants[v].mergedInto.Some? ==> c.variants[v].product in c.merges;
  }

  lemma SplitKeepsMerges(c: Catalog, source: Id, selected: seq<Id>, created: Id, p: Id, v: Id)
    requires CatalogInv(c) && Enabled(c, Split(source, selected, created)) && SplitStep(c, source, selected, created).Ok?
    ensures var after := SplitStep(c, source, selected, created).value;
            && (p in c.products && c.products[p].status == Merged ==>
                  p in after.products && after.products[p] == c.products[p])
            && (v in c.variants && c.variants[v].mergedInto.Some? ==>
                  v in after.variants && after.variants[v] == c.variants[v])
  {
    hide NoSpan, OffersLinked;
    assert v in SetOf(selected) ==> c.variants[v].product == source;
  }

  /** Once merged a product stays merged into the same survivor; so do variants. */
  lemma StepKeepsMerges(c: Catalog, op: Op, p: Id, v: Id)
    requires CatalogInv(c) && Enabled(c, op)
    ensures p in c.products && c.products[p].status == Merged ==>
              p in Step(c, op).products && Step(c, op).products[p] == c.products[p]
    ensures v in c.variants && c.variants[v].mergedInto.Some? ==>
              v in Step(c, op).variants && Step(c, op).variants[v] == c.variants[v]
  {
    hide MergeStep, SplitStep, NoSpan, OffersLinked;
    if op.Merge? && Apply(c, op).Ok? {
      MergeKeepsMerges(c, op.loser, op.survivor, p, v);
    } else if op.Split? && Apply(c, op).Ok? {
      SplitKeepsMerges(c, op.source, op.selected, op.created, p, v);
    }
  }

  ghost predicate Runs(c: Catalog, ops: seq<Op>)
    requires CatalogInv(c)
    decreases |ops|
  {
    ops == [] || (Enabled(c, ops[0]) && (StepKeepsInv(c, ops[0]); Runs(Step(c, ops[0]), ops[1..])))
  }

  ghost function After(c: Catalog, ops: seq<Op>): (after: Catalog)
    requires CatalogInv(c) && Runs(c, ops)
    ensures CatalogInv(after)
    decreases |ops|
  {
    if ops == [] then c
    else
      StepKeepsInv(c, ops[0]);
      After(Step(c, ops[0]), ops[1..])
  }

  function Empty(): (c: Catalog)
    ensures CatalogInv(c)
  {
    Catalog(map[], map[], map[], map[], map[], [])
  }

  /** In every reachable catalogue, whatever was merged, split, reviewed and confirmed, no offer spans two products. */
  lemma NoOfferSpansTwoProducts(ops: seq<Op>, i: Id, j: Id)
    requires Runs(Empty(), ops)
    ensures var c := After(Empty(), ops);
            i in c.items && j in c.items && c.items[i].offer == c.items[j].offer
            && c.items[i].link.Some? && c.items[j].link.Some? ==>
              c.items[i].link.value in c.variants && c.items[j].link.value in c.variants
              && c.variants[c.items[i].link.value].product == c.variants[c.items[j].link.value].product
  {
    var c := After(Empty(), ops);
    assert NoSpan(c);
  }

  /** A product merged once is merged for good, into the same product, however the run goes on. */
  lemma {:induction false} MergedForGood(c: Catalog, ops: seq<Op>, p: Id)
    requires CatalogInv(c) && Runs(c, ops) && p in c.products && c.products[p].status == Merged
    ensures p in After(c, ops).products && After(c, ops).products[p] == c.products[p]
    decreases |ops|
  {
    if ops != [] {
      StepKeepsInv(c, ops[0]);
      StepKeepsMerges(c, ops[0], p, p);
      MergedForGood(Step(c, ops[0]), ops[1..], p);
    }
  }

  // ---- an acceptance whose read is older than its write

  /**
   * Review and confirmation read which product the variant belongs to, and write later: link `v` to
   * item `i`, and put the offer on the product as it was read, unless the offer has one.
   */
  function LinkAsRead(c: Catalog, i: Id, v: Id, read: Id): Catalog
    requires i in c.items && c.items[i].offer in c.offers
  {
    var o := c.items[i].offer;
    c.(items := c.items[i := c.items[i].(link := Some(v))],
       offers := if c.offers[o].None? then c.offers[o := Some(read)] else c.offers)
  }

  /** The check made on what was read: the offer has no product, or has that one. */
  predicate PassedCheck(c: Catalog, i: Id, v: Id, read: Id)
  {
    && i in c.items && v in c.variants && c.items[i].offer in c.offers
    && (c.offers[c.items[i].offer] == None || c.offers[c.items[i].offer] == Some(read))
  }

  /** The late write keeps the catalogue consistent exactly when the variant still belongs to the product read. */
  lemma LinkAsReadKeepsInvIff(c: Catalog, i: Id, v: Id, read: Id)
    requires CatalogInv(c) && PassedCheck(c, i, v, read)
    ensures NoSpan(LinkAsRead(c, i, v, read)) <==> c.variants[v].product == read
    ensures c.variants[v].product == read ==> CatalogInv(LinkAsRead(c, i, v, read))
  {
    var after := LinkAsRead(c, i, v, read);
    if c.variants[v].product == read {
      assert after == Link(c, i, v).value;
      LinkKeepsGraph(c, i, v);
      SameProductsKeepChains(c, after);
    } else {
      assert after.items[i].link == Some(v) && after.offers[c.items[i].offer] == Some(read);
    }
  }

  /** A variant changes its product only through a split of that product. */
  lemma OnlySplitMovesVariants(c: Catalog, op: Op, v: Id)
    requires CatalogInv(c) && Enabled(c, op) && v in c.variants
    ensures v in Step(c, op).variants
    ensures Step(c, op).variants[v].product != c.variants[v].product ==> op.Split? && op.source == c.variants[v].product
  {
    hide NoSpan, OffersLinked, ProductChainsOk, VariantChainsOk;
  }

  /** Nothing in the run takes the lock on product `p`: no split of it. */
  predicate NoSplitOf(ops: seq<Op>, p: Id)
  {
    forall n | 0 <= n < |ops| :: ops[n].Split? ==> ops[n].source != p
  }

  /** If the lock held is on the product read, every split of it waits, and the variant stays where it was read. */
  lemma {:induction false} LockedVariantStays(c: Catalog, ops: seq<Op>, v: Id, read: Id)
    requires CatalogInv(c) && Runs(c, ops) && v in c.variants && c.variants[v].product == read && NoSplitOf(ops, read)
    ensures v in After(c, ops).variants && After(c, ops).variants[v].product == read
    decreases |ops|
  {
    hide RefsOk, NoSpan, OffersLinked, ProductChainsOk, VariantChainsOk, Step;
    if ops != [] {
      StepKeepsInv(c, ops[0]);
      OnlySplitMovesVariants(c, ops[0], v);
      LockedVariantStays(Step(c, ops[0]), ops[1..], v, read);
    }
  }

  /**
   * So an acceptance is safe when the product it has locked is the one it then reads: whatever runs
   * between that read and the write, no offer comes to span two products.
   */
  lemma CoveredAcceptanceIsSafe(c: Catalog, ops: seq<Op>, i: Id, v: Id, locked: Id)
    requires CatalogInv(c) && Runs(c, ops) && NoSplitOf(ops, locked)
    requires v in c.variants && c.variants[v].product == locked && PassedCheck(After(c, ops), i, v, locked)
    ensures CatalogInv(LinkAsRead(After(c, ops), i, v, locked))
  {
    LockedVariantStays(c, ops, v, locked);
    LinkAsReadKeepsInvIff(After(c, ops), i, v, locked);
  }

  /** Variants 10 to 12 of product 0; 10 and 11 are split off to product 1, and then 10 to product 2. */
  function TwoSplits(): seq<Op>
  {
    [AddProduct(0), AddVariant(10, 0, map[]), AddVariant(11, 0, map[]), AddVariant(12, 0, map[]), AddOffer(20),
     AddItem(30, 20, Some(10)), Split(0, [10, 11], 1), Split(1, [10], 2)]
  }

  /** The catalogue after the first `n` of these. */
  function SplitStage(n: nat): Catalog
  {
    var v := Variant(if n < 7 then 0 else if n == 7 then 1 else 2, map[], None);
    var w := Variant(if n < 7 then 0 else 1, map[], None);
    var one := map[0 := Product(Draft, None)];
    Catalog(
      if n == 0 then map[] else if n < 7 then one else if n == 7 then one[1 := Product(Draft, None)]
      else one[1 := Product(Draft, None)][2 := Product(Draft, None)],
      if n < 2 then map[] else if n == 2 then map[10 := v] else if n == 3 then map[10 := v, 11 := w]
      else map[10 := v, 11 := w, 12 := Variant(0, map[], None)],
      if n < 5 then map[] else map[20 := None],
      if n < 6 then map[] else map[30 := Item(20, None, Pending(10))],
      map[], [])
  }

  lemma SplitStageAdds(n: nat)
    requires n < 6 && CatalogInv(SplitStage(n))
    ensures Enabled(SplitStage(n), TwoSplits()[n]) && Step(SplitStage(n), TwoSplits()[n]) == SplitStage(n + 1)
  {
  }

  lemma SetOfList(s: seq<Id>)
    requires |s| == 1 || |s| == 2
    ensures SetOf(s) == if |s| == 1 then {s[0]} else {s[0], s[1]}
  {
  }

  /** No item is linked yet, so a split that names part of a product's variants is accepted. */
  lemma UnlinkedSplit(c: Catalog, source: Id, selected: seq<Id>, created: Id)
    requires CatalogInv(c) && (forall i | i in c.items :: c.items[i].link == None) && created !in c.products
    requires selected != [] && source in c.products && c.products[source].status != Merged
    requires SetOf(selected) <= VariantsOf(c, source) && |selected| != |VariantsOf(c, source)|
    ensures Step(c, Split(source, selected, created)) ==
            c.(products := c.products[created := Product(Draft, None)],
               variants := MoveVariants(c.variants, SetOf(selected), created))
  {
    assert forall vs :: OffersLinkedTo(c, vs) == {};
    assert PointOffers(c.offers, {}, created) == c.offers;
  }

  lemma FirstSplitFacts()
    ensures var c := SplitStage(6);
            && (forall i | i in c.items :: c.items[i].link == None) && VariantsOf(c, 0) == {10, 11, 12}
            && c.products == map[0 := Product(Draft, None)]
            && c.(products := c.products[1 := Product(Draft, None)], variants := MoveVariants(c.variants, {10, 11}, 1))
               == SplitStage(7)
  {
    assert MoveVariants(SplitStage(6).variants, {10, 11}, 1) == SplitStage(7).variants;
  }

  lemma SecondSplitFacts()
    ensures var c := SplitStage(7);
            && (forall i | i in c.items :: c.items[i].link == None) && VariantsOf(c, 1) == {10, 11}
            && c.products == map[0 := Product(Draft, None), 1 := Product(Draft, None)]
            && c.(products := c.products[2 := Product(Draft, None)], variants := MoveVariants(c.variants, {10}, 2))
               == SplitStage(8)
  {
    assert MoveVariants(SplitStage(7).variants, {10}, 2) == SplitStage(8).variants;
  }

  lemma SplitStageSplits(n: nat)
    requires (n == 6 || n == 7) && CatalogInv(SplitStage(n))
    ensures Enabled(SplitStage(n), TwoSplits()[n]) && Step(SplitStage(n), TwoSplits()[n]) == SplitStage(n + 1)
  {
    hide CatalogInv, SplitStage, VariantsOf, MoveVariants, Step, SetOf;
    SetOfList([10, 11]);
    SetOfList([10]);
    if n == 6 {
      FirstSplitFacts();
      UnlinkedSplit(SplitStage(6), 0, [10, 11], 1);
    } else {
      SecondSplitFacts();
      UnlinkedSplit(SplitStage(7), 1, [10], 2);
    }
  }

  lemma {:induction false} SplitStageRuns(n: nat)
    requires n <= 8 && CatalogInv(SplitStage(n))
    ensures Runs(SplitStage(n), TwoSplits()[n..]) && After(SplitStage(n), TwoSplits()[n..]) == SplitStage(8)
    decreases 8 - n
  {
    hide SplitStage, RefsOk, NoSpan, OffersLinked, ProductChainsOk, VariantChainsOk, Step, Enabled;
    if n < 8 {
      if n < 6 { SplitStageAdds(n); } else { SplitStageSplits(n); }
      StepKeepsInv(SplitStage(n), TwoSplits()[n]);
      SplitStageRuns(n + 1);
      assert TwoSplits()[n..][0] == TwoSplits()[n] && TwoSplits()[n..][1..] == TwoSplits()[n + 1..];
    }
  }

  /**
   * The lock can be on another product. The first split comes between the unlocked read that picks
   * the lock, on product 0, and the read that counts, product 1; the second before the write.
   */
  lemma StaleAcceptanceSpans()
    ensures Runs(Empty(), TwoSplits())
    ensures var c := After(Empty(), TwoSplits());
            PassedCheck(c, 30, 10, 1) && !NoSpan(LinkAsRead(c, 30, 10, 1))
  {
    assert SplitStage(0) == Empty();
    LastSplitStage();
    hide SplitStage, Empty, CatalogInv, NoSpan, Runs, After, LinkAsRead;
    SplitStageRuns(0);
    assert TwoSplits()[0..] == TwoSplits();
    LinkAsReadKeepsInvIff(SplitStage(8), 30, 10, 1);
  }

  lemma LastSplitStage()
    ensures PassedCheck(SplitStage(8), 30, 10, 1) && SplitStage(8).variants[10].product == 2
  {
  }

  // ---- offers on merged products

  /** No offer sits on a product that was merged away. */
  predicate NoneOnMerged(c: Catalog)
  {
    forall p | p in c.products && c.products[p].status == Merged :: OffersOf(c, p) == {}
  }

  /** The variant an owner accepts, if the operation is an acceptance that is still open. */
  function AcceptedVariant(c: Catalog, op: Op): Option<Id>
    requires RefsOk(c) && Enabled(c, op)
  {
    match op
    case Decide(i, k, approve) =>
      if approve && k in c.candidates && c.candidates[k].item == i && c.candidates[k].review == Undecided
      then Some(c.candidates[k].variant) else None
    case ConfirmMatch(i, confirm) =>
      if confirm && c.items[i].proposal.Pending? then Some(c.items[i].proposal.variant) else None
    case _ => None
  }

  /** The look at the product's status that review and confirmation leave out. */
  predicate LinksToStanding(c: Catalog, op: Op)
    requires RefsOk(c) && Enabled(c, op)
  {
    var v := AcceptedVariant(c, op);
    v.Some? && c.offers[c.items[op.item].offer] == None ==> c.products[c.variants[v.value].product].status != Merged
  }

  /** Putting one unmatched offer on a product spoils it exactly when that product is merged away. */
  lemma LinkStaysOffMergedIff(c: Catalog, i: Id, v: Id)
    requires CatalogInv(c) && NoneOnMerged(c) && i in c.items && v in c.variants && Link(c, i, v).Ok?
    ensures NoneOnMerged(Link(c, i, v).value)
            <==> (c.offers[c.items[i].offer] == None ==> c.products[c.variants[v].product].status != Merged)
  {
    var after := Link(c, i, v).value;
    var o, p := c.items[i].offer, c.variants[v].product;
    if c.offers[o] == None {
      assert o in OffersOf(after, p);
      forall q | q != p ensures OffersOf(after, q) == OffersOf(c, q) {
      }
    } else {
      assert after.offers == c.offers;
      SameOffersSameVerdict(c, after);
    }
  }

  lemma SameOffersSameVerdict(c: Catalog, after: Catalog)
    requires after.products == c.products && after.offers == c.offers
    ensures NoneOnMerged(after) == NoneOnMerged(c)
  {
    assert forall p :: OffersOf(after, p) == OffersOf(c, p);
  }

  lemma MergeStaysOffMerged(c: Catalog, loser: Id, survivor: Id)
    requires CatalogInv(c) && NoneOnMerged(c) && MergeStep(c, loser, survivor).Ok?
    ensures NoneOnMerged(MergeStep(c, loser, survivor).value)
  {
    hide CatalogInv;
    var after := MergeStep(c, loser, survivor).value;
    forall p | p in after.products && after.products[p].status == Merged ensures OffersOf(after, p) == {} {
      MergeMovesOffers(c, loser, survivor, p);
    }
  }

  lemma SplitStaysOffMerged(c: Catalog, source: Id, selected: seq<Id>, created: Id)
    requires CatalogInv(c) && NoneOnMerged(c) && created !in c.products && SplitStep(c, source, selected, created).Ok?
    ensures NoneOnMerged(SplitStep(c, source, selected, created).value)
  {
    hide CatalogInv, RefsOk, NoSpan, OffersLinked;
    var after := SplitStep(c, source, selected, created).value;
    forall p | p in after.products && after.products[p].status == Merged ensures OffersOf(after, p) == {} {
      SplitPartitionsOffers(c, source, selected, created, p);
    }
  }

  lemma TransitionStaysOffMerged(c: Catalog, p: Id, to: Status, unrestricted: bool)
    requires CatalogInv(c) && NoneOnMerged(c) && p in c.products && TransitionStep(c, p, to, unrestricted).Ok?
    ensures NoneOnMerged(TransitionStep(c, p, to, unrestricted).value)
  {
    TransitionKeepsInv(c, p, to, unrestricted);
    assert forall q :: OffersOf(TransitionStep(c, p, to, unrestricted).value, q) == OffersOf(c, q);
  }

  lemma AddStaysOffMerged(c: Catalog, op: Op)
    requires CatalogInv(c) && NoneOnMerged(c) && Enabled(c, op) && IsAdd(op)
    ensures NoneOnMerged(Step(c, op))
  {
    var after := Step(c, op);
    forall p | p in after.products && after.products[p].status == Merged ensures OffersOf(after, p) == {} {
      assert OffersOf(after, p) == OffersOf(c, p);
    }
  }

  /** A decision links if its candidate is accepted; all else it changes are candidates. */
  lemma DecideStaysOffMergedIff(c: Catalog, item: Id, candidate: Id, approve: bool)
    requires CatalogInv(c) && NoneOnMerged(c) && item in c.items && DecideStep(c, item, candidate, approve).Ok?
    ensures NoneOnMerged(DecideStep(c, item, candidate, approve).value)
            <==> LinksToStanding(c, Decide(item, candidate, approve))
  {
    hide NoSpan, OffersLinked, ProductChainsOk, VariantChainsOk;
    var after := DecideStep(c, item, candidate, approve).value;
    if approve {
      var v := c.candidates[candidate].variant;
      LinkStaysOffMergedIff(c, item, v);
      SameOffersSameVerdict(Link(c, item, v).value, after);
    } else {
      SameOffersSameVerdict(c, after);
    }
  }

  lemma ConfirmStaysOffMergedIff(c: Catalog, item: Id, confirm: bool)
    requires CatalogInv(c) && NoneOnMerged(c) && item in c.items && ConfirmMatchStep(c, item, confirm).Ok?
    ensures NoneOnMerged(ConfirmMatchStep(c, item, confirm).value) <==> LinksToStanding(c, ConfirmMatch(item, confirm))
  {
    hide NoSpan, OffersLinked, ProductChainsOk, VariantChainsOk;
    var after := ConfirmMatchStep(c, item, confirm).value;
    if confirm {
      var v := c.items[item].proposal.variant;
      LinkStaysOffMergedIff(c, item, v);
      SameOffersSameVerdict(Link(c, item, v).value, after);
    } else {
      SameOffersSameVerdict(c, after);
    }
  }

  /** A refused acceptance of an unmatched offer's item never got to the check, so the rule asks nothing of it. */
  lemma RefusalAsksNothing(c: Catalog, op: Op)
    requires CatalogInv(c) && Enabled(c, op) && Apply(c, op).Err? && (op.Decide? || op.ConfirmMatch?)
    ensures LinksToStanding(c, op)
  {
  }

  /**
   * One operation keeps offers off merged products if and only if it is not an accepted review or
   * confirmation that puts an unmatched offer on a variant of a merged product.
   */
  lemma StepStaysOffMergedIff(c: Catalog, op: Op)
    requires CatalogInv(c) && NoneOnMerged(c) && Enabled(c, op)
    ensures NoneOnMerged(Step(c, op)) <==> LinksToStanding(c, op)
  {
    hide NoneOnMerged, NoSpan, OffersLinked, ProductChainsOk, VariantChainsOk;
    hide MergeStep, SplitStep, DecideStep, ConfirmMatchStep, TransitionStep;
    if Apply(c, op).Ok? {
      match op
      case Merge(loser, survivor) => MergeStaysOffMerged(c, loser, survivor);
      case Split(source, selected, created) => SplitStaysOffMerged(c, source, selected, created);
      case Decide(i, k, approve) => DecideStaysOffMergedIff(c, i, k, approve);
      case ConfirmMatch(i, confirm) => ConfirmStaysOffMergedIff(c, i, confirm);
      case Transition(p, to, unrestricted) => TransitionStaysOffMerged(c, p, to, unrestricted);
      case _ => AddStaysOffMerged(c, op);
    } else if op.Decide? || op.ConfirmMatch? {
      RefusalAsksNothing(c, op);
    }
  }

  /** At no point of the run is an offer on a merged product. */
  ghost predicate NeverOnMerged(c: Catalog, ops: seq<Op>)
    requires CatalogInv(c) && Runs(c, ops)
    decreases |ops|
  {
    NoneOnMerged(c) && (ops == [] || (StepKeepsInv(c, ops[0]); NeverOnMerged(Step(c, ops[0]), ops[1..])))
  }

  /** Every acceptance of the run looks at the product first. */
  ghost predicate AllLinkToStanding(c: Catalog, ops: seq<Op>)
    requires CatalogInv(c) && Runs(c, ops)
    decreases |ops|
  {
    ops == [] ||
    (LinksToStanding(c, ops[0]) && (StepKeepsInv(c, ops[0]); AllLinkToStanding(Step(c, ops[0]), ops[1..])))
  }

  lemma {:induction false} RunStaysOffMergedIff(c: Catalog, ops: seq<Op>)
    requires CatalogInv(c) && Runs(c, ops) && NoneOnMerged(c)
    ensures NeverOnMerged(c, ops) <==> AllLinkToStanding(c, ops)
    decreases |ops|
  {
    hide NoneOnMerged, LinksToStanding, Step, RefsOk, NoSpan, OffersLinked, ProductChainsOk, VariantChainsOk;
    if ops != [] {
      StepKeepsInv(c, ops[0]);
      StepStaysOffMergedIff(c, ops[0]);
      if NoneOnMerged(Step(c, ops[0])) { RunStaysOffMergedIff(Step(c, ops[0]), ops[1..]); }
    }
  }

  /**
   * Over whole runs: no offer is ever on a merged product exactly when every accepted review and
   * confirmation of an unmatched offer names a variant of a product that still stands.
   */
  lemma OffMergedIffGuarded(ops: seq<Op>)
    requires Runs(Empty(), ops)
    ensures NeverOnMerged(Empty(), ops) <==> AllLinkToStanding(Empty(), ops)
  {
    RunStaysOffMergedIff(Empty(), ops);
  }

  /**
   * A run that breaks it. Product 0 with variant 10 is proposed for item 30 of offer 20, by review and
   * as an exact match; 0 is then merged into product 1, and the owner accepts one of the proposals.
   */
  function AcceptAfterMerge(review: bool): seq<Op>
  {
    [AddProduct(0), AddProduct(1), AddVariant(10, 0, map[]), AddVariant(11, 1, map[]), AddOffer(20),
     AddItem(30, 20, Some(10)), AddCandidate(40, 30, 10), Merge(0, 1),
     if review then Decide(30, 40, true) else ConfirmMatch(30, true)]
  }

  /** The catalogue after the first `n` of these. */
  function Stage(n: nat): Catalog
  {
    var product, variant := Product(Draft, None), map[10 := Variant(0, map[], None)];
    var before := Catalog(
      if n == 0 then map[] else if n == 1 then map[0 := product] else map[0 := product, 1 := product],
      if n < 3 then map[] else if n == 3 then variant else variant[11 := Variant(1, map[], None)],
      if n < 5 then map[] else map[20 := None],
      if n < 6 then map[] else map[30 := Item(20, None, Pending(10))],
      if n < 7 then map[] else map[40 := Candidate(30, 10, Undecided)],
      []);
    if n < 8 then before
    else before.(products := before.products[0 := Product(Merged, Some(1))],
                 variants := before.variants[10 := Variant(0, map[], Some(11))],
                 merges := [0])
  }

  lemma StageAdds(n: nat, review: bool)
    requires n < 7 && CatalogInv(Stage(n))
    ensures Enabled(Stage(n), AcceptAfterMerge(review)[n])
    ensures Step(Stage(n), AcceptAfterMerge(review)[n]) == Stage(n + 1)
  {
  }

  lemma StagePairs()
    ensures VariantsOf(Stage(7), 0) == {10} && AllMatched(Stage(7), 0, 1)
    ensures Pairing(Stage(7), 0, 1) == map[10 := 11]
    ensures OffersLinkedTo(Stage(7), VariantsOf(Stage(7), 0) + VariantsOf(Stage(7), 1)) == {}
  {
    assert VariantsOf(Stage(7), 0) == {10} && Matches(Stage(7), 1, 10) == {11};
  }

  lemma MarkOne(variants: map<Id, Variant>, v: Id, into: Id)
    requires v in variants
    ensures MarkMerged(variants, map[v := into]) == variants[v := variants[v].(mergedInto := Some(into))]
  {
  }

  lemma NothingRepointed(items: map<Id, Item>, pairing: map<Id, Id>)
    requires forall i | i in items :: items[i].link == None
    ensures Repoint(items, pairing) == items
  {
  }

  lemma NothingPointed(offers: map<Id, Option<Id>>, p: Id)
    ensures PointOffers(offers, {}, p) == offers
  {
  }

  lemma StageMerges()
    requires CatalogInv(Stage(7))
    ensures Step(Stage(7), Merge(0, 1)) == Stage(8)
  {
    hide CatalogInv, VariantsOf, OffersLinkedTo, AllMatched, Pairing, MarkMerged, Repoint, PointOffers;
    StagePairs();
    MarkOne(Stage(7).variants, 10, 11);
    NothingRepointed(Stage(7).items, map[10 := 11]);
    NothingPointed(Stage(7).offers, 1);
  }

  lemma StageAccepts(review: bool)
    requires CatalogInv(Stage(8))
    ensures var op := AcceptAfterMerge(review)[8]; Enabled(Stage(8), op) && !LinksToStanding(Stage(8), op)
  {
  }

  lemma StageStep(n: nat, review: bool)
    requires n < 8 && CatalogInv(Stage(n))
    ensures Enabled(Stage(n), AcceptAfterMerge(review)[n])
    ensures Step(Stage(n), AcceptAfterMerge(review)[n]) == Stage(n + 1) && CatalogInv(Stage(n + 1))
  {
    hide Stage, RefsOk, NoSpan, OffersLinked, ProductChainsOk, VariantChainsOk, Step;
    if n < 7 { StageAdds(n, review); } else { StageMerges(); }
    StepKeepsInv(Stage(n), AcceptAfterMerge(review)[n]);
  }

  lemma {:induction false} StageRuns(n: nat, review: bool)
    requires n <= 8 && CatalogInv(Stage(n))
    ensures Runs(Stage(n), AcceptAfterMerge(review)[n..])
            && !AllLinkToStanding(Stage(n), AcceptAfterMerge(review)[n..])
    decreases 8 - n
  {
    hide Stage, Enabled, Step, CatalogInv, LinksToStanding, AcceptAfterMerge;
    var ops := AcceptAfterMerge(review);
    NineOps(review);
    assert ops[n..][0] == ops[n] && ops[n..][1..] == ops[n + 1..];
    if n < 8 {
      StageStep(n, review);
      StageRuns(n + 1, review);
    } else {
      StageAccepts(review);
      StepKeepsInv(Stage(8), ops[8]);
    }
  }

  lemma NineOps(review: bool)
    ensures |AcceptAfterMerge(review)| == 9
  {
  }

  /** Neither review nor confirmation looks at the product's status, so each can put an offer on a merged product. */
  lemma ReviewMayLinkToMerged(review: bool)
    ensures Runs(Empty(), AcceptAfterMerge(review)) && !NeverOnMerged(Empty(), AcceptAfterMerge(review))
  {
    assert Stage(0) == Empty();
    hide Stage, Empty, AcceptAfterMerge, Runs, NeverOnMerged, AllLinkToStanding;
    StageRuns(0, review);
    NineOps(review);
    assert AcceptAfterMerge(review)[0..] == AcceptAfterMerge(review);
    OffMergedIffGuarded(AcceptAfterMerge(review));
  }

  // ---- how the writes of a merge add up

  lemma MarkOneMore(variants: map<Id, Variant>, pairing: map<Id, Id>, done: set<Id>, v: Id)
    requires v in pairing && v !in done && v in variants
    ensures var before := MarkMerged(variants, Restrict(pairing, done));
            MarkMerged(variants, Restrict(pairing, done + {v})) == before[v := before[v].(mergedInto := Some(pairing[v]))]
  {
  }

  lemma RepointOneMore(items: map<Id, Item>, pairing: map<Id, Id>, done: set<Id>, v: Id)
    requires v in pairing && v !in done && forall w | w in pairing :: pairing[w] !in pairing
    ensures var before := Repoint(items, Restrict(pairing, done));
            Repoint(items, Restrict(pairing, done + {v}))
            == map i | i in before :: if before[i].link == Some(v) then before[i].(link := Some(pairing[v])) else before[i]
  {
  }

  lemma PointOneMore(offers: map<Id, Option<Id>>, done: set<Id>, o: Id, p: Id)
    requires o in offers
    ensures PointOffers(offers, done + {o}, p) == PointOffers(offers, done, p)[o := Some(p)]
  {
  }

  lemma InvMeansLinkedOffersExist(c: Catalog, vs: set<Id>)
    requires CatalogInv(c)
    ensures OffersLinkedTo(c, vs) <= c.offers.Keys
  {
  }

  /** The rows as the merge service and the two confirming controllers change them. */
  class Store {
    var products: map<Id, Product>
    var variants: map<Id, Variant>
    var offers: map<Id, Option<Id>>
    var items: map<Id, Item>
    var candidates: map<Id, Candidate>
    ghost var merges: seq<Id>

    ghost function State(): Catalog
      reads this
    {
      Catalog(products, variants, offers, items, candidates, merges)
    }

    constructor ()
      ensures State() == Empty()
    {
      products, variants, offers, items, candidates, merges := map[], map[], map[], map[], map[], [];
    }

    /** Pair each loser variant with the survivor's variants that have its attributes. */
    method PairVariants(loser: Id, survivor: Id) returns (pairing: Option<map<Id, Id>>)
      ensures pairing.Some? <==> AllMatched(State(), loser, survivor)
      ensures pairing.Some? ==> pairing.value == Pairing(State(), loser, survivor)
    {
      var found: map<Id, Id> := map[];
      var rest := set v | v in variants && variants[v].product == loser;
      ghost var all := rest;
      while rest != {}
        invariant rest <= all && found.Keys == all - rest
        invariant forall v | v in all - rest :: Matches(State(), survivor, v) == {found[v]}
        decreases rest
      {
        var v :| v in rest;
        var matches := set s | s in variants && variants[s].product == survivor
                               && variants[s].attributes == variants[v].attributes;
        assert matches == Matches(State(), survivor, v);
        if |matches| != 1 {
          assert v in VariantsOf(State(), loser);
          return None;
        }
        var s :| s in matches;
        SingletonIs(matches, s);
        found, rest := found[v := s], rest - {v};
      }
      assert all == VariantsOf(State(), loser);
      pairing := Some(found);
    }

    /** Point loser variants and their items at the survivor's, pair by pair. */
    method ApplyPairing(pairing: map<Id, Id>)
      requires pairing.Keys <= variants.Keys && forall v | v in pairing :: pairing[v] !in pairing
      modifies this`variants, this`items
      ensures variants == MarkMerged(old(variants), pairing) && items == Repoint(old(items), pairing)
    {
      var rest := pairing.Keys;
      ghost var done: set<Id> := {};
      assert Restrict(pairing, {}) == map[];
      while rest != {}
        invariant done !! rest && done + rest == pairing.Keys
        invariant variants == MarkMerged(old(variants), Restrict(pairing, done))
        invariant items == Repoint(old(items), Restrict(pairing, done))
        decreases rest
      {
        var v :| v in rest;
        MarkOneMore(old(variants), pairing, done, v);
        RepointOneMore(old(items), pairing, done, v);
        variants := variants[v := variants[v].(mergedInto := Some(pairing[v]))];
        items := map i | i in items :: if items[i].link == Some(v) then items[i].(link := Some(pairing[v])) else items[i];
        rest, done := rest - {v}, done + {v};
      }
      assert Restrict(pairing, done) == pairing;
    }

    /** One update per offer. */
    method PointAll(moved: set<Id>, p: Id)
      requires moved <= offers.Keys
      modifies this`offers
      ensures offers == PointOffers(old(offers), moved, p)
    {
      var rest := moved;
      ghost var done: set<Id> := {};
      while rest != {}
        invariant done !! rest && done + rest == moved
        invariant offers == PointOffers(old(offers), done, p)
        decreases rest
      {
        var o :| o in rest;
        PointOneMore(old(offers), done, o, p);
        offers := offers[o := Some(p)];
        rest, done := rest - {o}, done + {o};
      }
      assert done == moved;
    }

    method MergeProducts(loser: Id, survivor: Id) returns (e: Option<CatalogError>)
      requires CatalogInv(State())
      modifies this
      ensures match e
              case Some(error) => MergeStep(old(State()), loser, survivor) == Err(error) && State() == old(State())
              case None => MergeStep(old(State()), loser, survivor) == Ok(State())
    {
      InvMeansLinkedOffersExist(State(), VariantsOf(State(), loser) + VariantsOf(State(), survivor));
      hide CatalogInv, RefsOk, NoSpan, OffersLinked, ProductChainsOk, VariantChainsOk, Pairing, Repoint, MarkMerged;
      if loser == survivor {
        return Some(SameProduct);
      }
      if survivor !in products || loser !in products {
        return Some(ProductNotFound);
      }
      if products[survivor].status == Merged {
        return Some(SurvivorMerged);
      }
      if products[loser].status == Merged {
        return Some(LoserMerged);
      }
      ghost var c := State();
      var pairing := PairVariants(loser, survivor);
      if pairing.None? {
        return Some(VariantUnmatched);
      }
      PairingPairs(c, loser, survivor);
      WriteMerge(loser, survivor, pairing.value);
      e := None;
    }

    /** Nothing is written before every check has passed. */
    method WriteMerge(loser: Id, survivor: Id, pairing: map<Id, Id>)
      requires loser != survivor && Pairs(State(), loser, survivor, pairing)
      requires OffersLinkedTo(State(), VariantsOf(State(), loser) + VariantsOf(State(), survivor)) <= offers.Keys
      modifies this
      ensures State() == MergeWith(old(State()), loser, survivor, pairing)
    {
      hide Repoint, MarkMerged;
      var both := set v | v in variants && (variants[v].product == loser || variants[v].product == survivor);
      var touched := set i | i in items && items[i].link.Some? && items[i].link.value in both :: items[i].offer;
      assert both == VariantsOf(State(), loser) + VariantsOf(State(), survivor);
      ApplyPairing(pairing);
      products := products[loser := Product(Merged, Some(survivor))];
      PointAll(touched, survivor);
      merges := merges + [loser];
    }

    /** Which offers have an item on a selected variant, and which on one that stays. */
    method Buckets(source: Id, selected: seq<Id>) returns (moving: set<Id>, spanning: set<Id>)
      requires SetOf(selected) <= VariantsOf(State(), source)
      ensures moving == OffersLinkedTo(State(), SetOf(selected))
      ensures spanning == SpanningOffers(State(), source, SetOf(selected))
    {
      ghost var c := State();
      ghost var stay := VariantsOf(c, source) - SetOf(selected);
      var all := set v | v in variants && variants[v].product == source;
      moving := {};
      var staying: set<Id> := {};
      var rest := set i | i in items && items[i].link.Some? && items[i].link.value in all;
      ghost var affected := rest;
      while rest != {}
        invariant rest <= affected
        invariant moving == set i | i in affected - rest && items[i].link.value in SetOf(selected) :: items[i].offer
        invariant staying == set i | i in affected - rest && items[i].link.value !in SetOf(selected) :: items[i].offer
        decreases rest
      {
        var i :| i in rest;
        if items[i].link.value in selected {
          moving := moving + {items[i].offer};
        } else {
          staying := staying + {items[i].offer};
        }
        rest := rest - {i};
      }
      spanning := moving * staying;
      assert moving == OffersLinkedTo(c, SetOf(selected));
      assert staying == OffersLinkedTo(c, stay);
      assert VariantsOf(c, source) * SetOf(selected) == SetOf(selected);
    }

    method SplitProduct(source: Id, selected: seq<Id>, created: Id) returns (e: Option<CatalogError>)
      requires CatalogInv(State()) && created !in products
      modifies this
      ensures match e
              case Some(error) => SplitStep(old(State()), source, selected, created) == Err(error) && State() == old(State())
              case None => SplitStep(old(State()), source, selected, created) == Ok(State())
    {
      if selected == [] {
        return Some(NothingSelected);
      }
      if source !in products {
        return Some(ProductNotFound);
      }
      if products[source].status == Merged {
        return Some(SourceMerged);
      }
      var all := set v | v in variants && variants[v].product == source;
      assert all == VariantsOf(State(), source);
      if !(SetOf(selected) <= all) {
        return Some(VariantNotInSource);
      }
      if |selected| == |all| {
        return Some(MovesAllVariants);
      }
      var moving, spanning := Buckets(source, selected);
      if spanning != {} {
        return Some(WouldSpanOffer);
      }
      products := products[created := Product(Draft, None)];
      variants := MoveVariants(variants, SetOf(selected), created);
      PointAll(moving, created);
      e := None;
    }

    /** An owner's decision on one review candidate of `item`. */
    method DecideCandidate(item: Id, candidate: Id, approve: bool) returns (e: Option<CatalogError>)
      requires CatalogInv(State()) && item in items
      modifies this
      ensures match e
              case Some(error) => DecideStep(old(State()), item, candidate, approve) == Err(error) && State() == old(State())
              case None => DecideStep(old(State()), item, candidate, approve) == Ok(State())
    {
      if candidate !in candidates || candidates[candidate].item != item {
        return Some(CandidateNotFound);
      }
      if candidates[candidate].review != Undecided {
        return Some(AlreadyDecided);
      }
      if !approve {
        candidates := candidates[candidate := candidates[candidate].(review := Declined)];
        return None;
      }
      var v, o := candidates[candidate].variant, items[item].offer;
      if offers[o].Some? && offers[o].value != variants[v].product {
        return Some(ConflictsWithOffer);
      }
      items := items[item := items[item].(link := Some(v))];
      if offers[o].None? { offers := offers[o := Some(variants[v].product)]; }
      candidates := candidates[candidate := candidates[candidate].(review := Approved)];
      candidates := map k | k in candidates ::
        if candidates[k].item == item && candidates[k].review == Undecided && k != candidate
        then candidates[k].(review := Declined) else candidates[k];
      assert candidates == DecideCandidates(old(candidates), candidate, item);
      e := None;
    }

    /** An owner's answer to the exact-match proposal of `item`. */
    method ConfirmProposal(item: Id, confirm: bool) returns (e: Option<CatalogError>)
      requires CatalogInv(State()) && item in items
      modifies this
      ensures match e
              case Some(error) => ConfirmMatchStep(old(State()), item, confirm) == Err(error) && State() == old(State())
              case None => ConfirmMatchStep(old(State()), item, confirm) == Ok(State())
    {
      if !items[item].proposal.Pending? {
        return Some(NoPendingProposal);
      }
      var v, o := items[item].proposal.variant, items[item].offer;
      if !confirm {
        items := items[item := items[item].(proposal := Rejected(v))];
        return None;
      }
      if offers[o].Some? && offers[o].value != variants[v].product {
        return Some(ConflictsWithOffer);
      }
      items := items[item := items[item].(link := Some(v), proposal := Confirmed(v))];
      if offers[o].None? { offers := offers[o := Some(variants[v].product)]; }
      assert items == old(items)[item := old(items)[item].(link := Some(v))][item := items[item]];
      e := None;
    }
  }

  lemma SingletonIs(s: set<Id>, x: Id)
    requires |s| == 1 && x in s
    ensures s == {x}
  {
    assert |s - {x}| == 0;
    assert s == s - {x} + {x};
  }
}
