/**
 * The rules of the catalogue on its rows: when exactly merge, split, review and status changes are accepted,
 * what each writes, and how a product can come to be published without ever having been under review.
 */
module CatalogRules {
  import opened Common
  import opened CanonicalMerge

  // ---- merge

  /** `s` is a variant of `survivor` with the attributes of `v`. */
  predicate Twin(c: Catalog, survivor: Id, v: Id, s: Id)
    requires v in c.variants
  {
    s in c.variants && c.variants[s].product == survivor && c.variants[s].attributes == c.variants[v].attributes
  }

  ghost predicate OneTwin(c: Catalog, survivor: Id, v: Id)
    requires v in c.variants
  {
    exists s: Id :: Twin(c, survivor, v, s) && forall t: Id | Twin(c, survivor, v, t) :: t == s
  }

  lemma OneTwinMeansOneMatch(c: Catalog, survivor: Id, v: Id)
    requires v in c.variants
    ensures OneTwin(c, survivor, v) <==> |Matches(c, survivor, v)| == 1
  {
    var all := Matches(c, survivor, v);
    if OneTwin(c, survivor, v) {
      var s: Id :| Twin(c, survivor, v, s) && forall t: Id | Twin(c, survivor, v, t) :: t == s;
      forall t ensures t in all <==> t == s {
        if t in all { assert Twin(c, survivor, v, t); }
      }
      assert all == {s};
    }
    if |all| == 1 {
      var s :| s in all;
      assert |all - {s}| == 0;
      assert Twin(c, survivor, v, s);
      forall t: Id | Twin(c, survivor, v, t) ensures t == s {
        assert t in all;
        assert t != s ==> t in all - {s};
      }
    }
  }

  lemma AllMatchedMeans(c: Catalog, loser: Id, survivor: Id)
    ensures AllMatched(c, loser, survivor) <==>
            forall v | v in c.variants && c.variants[v].product == loser :: OneTwin(c, survivor, v)
  {
    forall v | v in c.variants && c.variants[v].product == loser
      ensures OneTwin(c, survivor, v) <==> |Matches(c, survivor, v)| == 1
    {
      OneTwinMeansOneMatch(c, survivor, v);
    }
  }

  /**
   * A merge is accepted exactly for two standing products, when every variant of the loser has one twin.
   * Otherwise the first reason counts.
   */
  lemma MergeIsAcceptedIff(c: Catalog, loser: Id, survivor: Id)
    ensures var r := MergeStep(c, loser, survivor);
            var known := survivor in c.products && loser in c.products;
            && (r.Ok? <==>
                  && loser != survivor && known
                  && c.products[survivor].status != Merged && c.products[loser].status != Merged
                  && forall v | v in c.variants && c.variants[v].product == loser :: OneTwin(c, survivor, v))
            && (loser == survivor ==> r == Err(SameProduct))
            && (loser != survivor && !known ==> r == Err(ProductNotFound))
            && (loser != survivor && known ==>
                  && (c.products[survivor].status == Merged ==> r == Err(SurvivorMerged))
                  && (c.products[survivor].status != Merged && c.products[loser].status == Merged ==> r == Err(LoserMerged))
                  && (c.products[survivor].status != Merged && c.products[loser].status != Merged && r.Err? ==>
                        r == Err(VariantUnmatched)))
  {
    hide OneTwin, AllMatched;
    AllMatchedMeans(c, loser, survivor);
  }

  /**
   * What a merge writes. The loser is merged into the survivor and each of its variants into its twin;
   * every item linked to one of them is linked to the twin; every offer with an item linked
   * to either product belongs to the survivor. Everything else stays.
   */
  lemma MergeWrites(c: Catalog, loser: Id, survivor: Id)
    requires MergeStep(c, loser, survivor).Ok?
    ensures var after := MergeStep(c, loser, survivor).value;
            && after.products == c.products[loser := Product(Merged, Some(survivor))]
            && after.candidates == c.candidates && after.merges == c.merges + [loser]
            && VariantsMerged(c, after, loser, survivor)
            && ItemsFollow(c, after, loser)
            && OffersFollow(c, after, loser, survivor)
  {
    hide AllMatched, Pairing, VariantsMerged, ItemsFollow, OffersFollow, MergeWith;
    PairingPairs(c, loser, survivor);
    var pairing := Pairing(c, loser, survivor);
    MergedRows(c, loser, survivor, pairing);
    VariantsGoToTwins(c, loser, survivor, pairing);
    ItemsGoAlong(c, loser, survivor, pairing);
    OffersGoAlong(c, loser, survivor, pairing);
  }

  lemma MergedRows(c: Catalog, loser: Id, survivor: Id, pairing: map<Id, Id>)
    ensures var after := MergeWith(c, loser, survivor, pairing);
            && after.products == c.products[loser := Product(Merged, Some(survivor))]
            && after.candidates == c.candidates && after.merges == c.merges + [loser]
  {
  }

  lemma VariantsGoToTwins(c: Catalog, loser: Id, survivor: Id, pairing: map<Id, Id>)
    requires Pairs(c, loser, survivor, pairing)
    ensures VariantsMerged(c, MergeWith(c, loser, survivor, pairing), loser, survivor)
  {
  }

  lemma ItemsGoAlong(c: Catalog, loser: Id, survivor: Id, pairing: map<Id, Id>)
    requires Pairs(c, loser, survivor, pairing)
    ensures ItemsFollow(c, MergeWith(c, loser, survivor, pairing), loser)
  {
  }

  lemma OffersGoAlong(c: Catalog, loser: Id, survivor: Id, pairing: map<Id, Id>)
    ensures OffersFollow(c, MergeWith(c, loser, survivor, pairing), loser, survivor)
  {
    hide HasLink, OffersLinkedTo;
    forall o | o in c.offers
      ensures o in OffersLinkedTo(c, VariantsOf(c, loser) + VariantsOf(c, survivor))
              <==> HasLink(c, o, loser) || HasLink(c, o, survivor)
    {
      TouchedMeans(c, loser, survivor, o);
    }
  }

  predicate VariantsMerged(c: Catalog, after: Catalog, loser: Id, survivor: Id)
  {
    && after.variants.Keys == c.variants.Keys
    && forall v | v in c.variants ::
         if c.variants[v].product == loser then
           && after.variants[v].mergedInto.Some? && Twin(c, survivor, v, after.variants[v].mergedInto.value)
           && after.variants[v].product == c.variants[v].product && after.variants[v].attributes == c.variants[v].attributes
         else after.variants[v] == c.variants[v]
  }

  predicate ItemsFollow(c: Catalog, after: Catalog, loser: Id)
  {
    && after.items.Keys == c.items.Keys
    && forall i | i in c.items ::
         if c.items[i].link.Some? && c.items[i].link.value in c.variants && c.variants[c.items[i].link.value].product == loser
         then c.items[i].link.value in after.variants
              && after.items[i] == Item(c.items[i].offer, after.variants[c.items[i].link.value].mergedInto, c.items[i].proposal)
         else after.items[i] == c.items[i]
  }

  /** Some item of the offer is linked to a variant of `p`. */
  predicate HasLink(c: Catalog, o: Id, p: Id)
  {
    exists i | i in c.items ::
      c.items[i].offer == o && c.items[i].link.Some?
      && c.items[i].link.value in c.variants && c.variants[c.items[i].link.value].product == p
  }

  predicate OffersFollow(c: Catalog, after: Catalog, loser: Id, survivor: Id)
  {
    && after.offers.Keys == c.offers.Keys
    && forall o | o in c.offers ::
         after.offers[o] == if HasLink(c, o, loser) || HasLink(c, o, survivor) then Some(survivor) else c.offers[o]
  }

  lemma TouchedMeans(c: Catalog, loser: Id, survivor: Id, o: Id)
    ensures o in OffersLinkedTo(c, VariantsOf(c, loser) + VariantsOf(c, survivor))
            <==> HasLink(c, o, loser) || HasLink(c, o, survivor)
  {
  }

  // ---- split

  /** The offer has an item linked to a selected variant of `p`, and one linked to a variant of `p` that stays. */
  predicate WouldSpan(c: Catalog, o: Id, p: Id, selected: seq<Id>)
  {
    exists i, j | i in c.items && j in c.items ::
      && c.items[i].offer == o && c.items[j].offer == o && c.items[i].link.Some? && c.items[j].link.Some?
      && c.items[i].link.value in c.variants && c.items[j].link.value in c.variants
      && c.variants[c.items[i].link.value].product == p && c.variants[c.items[j].link.value].product == p
      && c.items[i].link.value in selected && c.items[j].link.value !in selected
  }

  lemma SelectedAre(selected: seq<Id>, v: Id)
    ensures v in SetOf(selected) <==> v in selected
  {
    if v in selected { var n :| 0 <= n < |selected| && selected[n] == v; }
  }

  lemma SpanningMeans(c: Catalog, source: Id, selected: seq<Id>, o: Id)
    ensures o in SpanningOffers(c, source, SetOf(selected)) <==> WouldSpan(c, o, source, selected)
  {
    forall v ensures v in SetOf(selected) <==> v in selected {
      SelectedAre(selected, v);
    }
    hide SetOf;
    var ins, outs := VariantsOf(c, source) * SetOf(selected), VariantsOf(c, source) - SetOf(selected);
    if o in SpanningOffers(c, source, SetOf(selected)) {
      var i :| i in c.items && c.items[i].link.Some? && c.items[i].link.value in ins && c.items[i].offer == o;
      var j :| j in c.items && c.items[j].link.Some? && c.items[j].link.value in outs && c.items[j].offer == o;
    }
    if WouldSpan(c, o, source, selected) {
      assert o in OffersLinkedTo(c, ins) && o in OffersLinkedTo(c, outs);
    }
  }

  /**
   * A split is accepted exactly for a standing product and a non-empty list of its own variants, as long as
   * the list has not as many entries as the product has variants and no offer would be torn apart. The
   * offers that would be are found by their items, wherever those are linked.
   */
  lemma SplitIsAcceptedIff(c: Catalog, source: Id, selected: seq<Id>, created: Id)
    ensures SplitStep(c, source, selected, created).Ok? <==>
            && selected != [] && source in c.products && c.products[source].status != Merged
            && (forall v | v in selected :: v in c.variants && c.variants[v].product == source)
            && |selected| != |VariantsOf(c, source)|
            && (forall o :: !WouldSpan(c, o, source, selected))
  {
    forall v ensures v in SetOf(selected) <==> v in selected {
      SelectedAre(selected, v);
    }
    forall o ensures o in SpanningOffers(c, source, SetOf(selected)) <==> WouldSpan(c, o, source, selected) {
      SpanningMeans(c, source, selected, o);
    }
    hide WouldSpan, SpanningOffers, SetOf;
    assert SpanningOffers(c, source, SetOf(selected)) != {} ==>
        exists o :: o in SpanningOffers(c, source, SetOf(selected));
  }

  /**
   * What a split writes: a new draft product, the selected variants under it, and every offer linked to
   * one of them.
   */
  lemma SplitWrites(c: Catalog, source: Id, selected: seq<Id>, created: Id)
    requires SplitStep(c, source, selected, created).Ok?
    ensures var after := SplitStep(c, source, selected, created).value;
            && after == c.(products := c.products[created := Product(Draft, None)],
                           variants := after.variants, offers := after.offers)
            && after.variants.Keys == c.variants.Keys && after.offers.Keys == c.offers.Keys
            && (forall v | v in c.variants ::
                  after.variants[v] == if v in selected
                                       then Variant(created, c.variants[v].attributes, c.variants[v].mergedInto)
                                       else c.variants[v])
            && (forall o | o in c.offers ::
                  after.offers[o] ==
                  if exists i | i in c.items ::
                       c.items[i].offer == o && c.items[i].link.Some? && c.items[i].link.value in selected
                  then Some(created) else c.offers[o])
  {
    forall v ensures v in SetOf(selected) <==> v in selected {
      SelectedAre(selected, v);
    }
    hide SetOf;
    forall o | o in c.offers
      ensures o in OffersLinkedTo(c, SetOf(selected)) <==>
              exists i | i in c.items :: c.items[i].offer == o && c.items[i].link.Some? && c.items[i].link.value in selected
    {
    }
  }

  // ---- accepting a match

  /** The offer is free, or already on the variant's product. */
  predicate OfferAgrees(c: Catalog, item: Id, v: Id)
    requires item in c.items && v in c.variants && c.items[item].offer in c.offers
  {
    var offer := c.items[item].offer;
    c.offers[offer] == None || c.offers[offer] == Some(c.variants[v].product)
  }

  /** The item is linked to `v`, its offer is on the variant's product, and no other offer or item changed. */
  predicate Linked(c: Catalog, after: Catalog, item: Id, v: Id, proposal: Proposal)
    requires item in c.items && v in c.variants
  {
    && after.items == c.items[item := Item(c.items[item].offer, Some(v), proposal)]
    && after.offers == c.offers[c.items[item].offer := Some(c.variants[v].product)]
    && after.products == c.products && after.variants == c.variants && after.merges == c.merges
  }

  /**
   * Review: only an open candidate of that very item can be decided. Declining it closes it and nothing else.
   * Approving it needs an offer that agrees; it links the item and closes every other open candidate of it.
   */
  lemma DecideDoes(c: Catalog, item: Id, k: Id, approve: bool)
    requires RefsOk(c) && item in c.items
    ensures var r := DecideStep(c, item, k, approve);
            if !(k in c.candidates && c.candidates[k].item == item) then r == Err(CandidateNotFound)
            else if c.candidates[k].review != Undecided then r == Err(AlreadyDecided)
            else if !approve then
              r == Ok(c.(candidates := c.candidates[k := Candidate(item, c.candidates[k].variant, Declined)]))
            else if !OfferAgrees(c, item, c.candidates[k].variant) then r == Err(ConflictsWithOffer)
            else
              && r.Ok? && Linked(c, r.value, item, c.candidates[k].variant, c.items[item].proposal)
              && r.value.candidates.Keys == c.candidates.Keys
              && forall j | j in c.candidates ::
                   r.value.candidates[j] ==
                   Candidate(c.candidates[j].item, c.candidates[j].variant,
                             if j == k then Approved
                             else if c.candidates[j].item == item && c.candidates[j].review == Undecided then Declined
                             else c.candidates[j].review)
  {
  }

  /**
   * Confirmation answers a pending proposal once: rejected it is only marked, confirmed it links the
   * item under the same rule.
   */
  lemma ConfirmDoes(c: Catalog, item: Id, confirm: bool)
    requires RefsOk(c) && item in c.items
    ensures var r := ConfirmMatchStep(c, item, confirm);
            match c.items[item].proposal
            case Pending(v) =>
              if !confirm then r == Ok(c.(items := c.items[item := c.items[item].(proposal := Rejected(v))]))
              else if !OfferAgrees(c, item, v) then r == Err(ConflictsWithOffer)
              else r.Ok? && Linked(c, r.value, item, v, Confirmed(v)) && r.value.candidates == c.candidates
            case _ => r == Err(NoPendingProposal)
  {
  }

  // ---- the life of a product

  /**
   * The status changes there are: to review or shelf from draft, on or back from review, off and back on
   * from there.
   */
  lemma StatusChangesIff(c: Catalog, p: Id, to: Status, unrestricted: bool)
    requires p in c.products
    ensures var from := c.products[p].status;
            var r := TransitionStep(c, p, to, unrestricted);
            && (r.Ok? <==>
                  || (from == Draft && to == PendingReview && exists v :: v in c.variants && c.variants[v].product == p)
                  || (from == Draft && to == Archived)
                  || (from == PendingReview && to == Published && unrestricted)
                  || (from == PendingReview && to == Draft)
                  || (from == Published && to == Archived)
                  || (from == Archived && to == Published && unrestricted))
            && (r.Ok? ==> r.value == c.(products := c.products[p := Product(to, c.products[p].mergedInto)]))
            && (r == Err(NoVariants) <==>
                  from == Draft && to == PendingReview && !exists v :: v in c.variants && c.variants[v].product == p)
  {
    if v :| v in c.variants && c.variants[v].product == p { assert v in VariantsOf(c, p); }
    if VariantsOf(c, p) != {} { var v :| v in VariantsOf(c, p); }
  }

  /** Was `p` under review at some moment of the run? */
  ghost predicate OnceInReview(c: Catalog, ops: seq<Op>, p: Id)
    requires CatalogInv(c) && Runs(c, ops)
    decreases |ops|
  {
    || (p in c.products && c.products[p].status == PendingReview)
    || (ops != [] && (StepKeepsInv(c, ops[0]); OnceInReview(Step(c, ops[0]), ops[1..], p)))
  }

  /** Was `p` archived straight from draft? */
  ghost predicate ShelvedAsDraft(c: Catalog, ops: seq<Op>, p: Id)
    requires CatalogInv(c) && Runs(c, ops)
    decreases |ops|
  {
    ops != []
    && (|| (ops[0].Transition? && ops[0].product == p && ops[0].to == Archived && c.products[p].status == Draft)
        || (StepKeepsInv(c, ops[0]); ShelvedAsDraft(Step(c, ops[0]), ops[1..], p)))
  }

  /** Where one operation takes a product that is not there yet or a draft. */
  lemma FromDraft(c: Catalog, op: Op, p: Id)
    requires CatalogInv(c) && Enabled(c, op) && (p in c.products ==> c.products[p].status == Draft)
    ensures var after := Step(c, op);
            p in after.products ==>
              || after.products[p].status == Draft || after.products[p].status == PendingReview
              || after.products[p].status == Merged
              || (op.Transition? && op.product == p && op.to == Archived && c.products[p].status == Draft)
  {
    hide NoSpan, OffersLinked, ProductChainsOk, VariantChainsOk, AllMatched, Pairing;
    if op.Split? && Apply(c, op).Ok? { SplitWrites(c, op.source, op.selected, op.created); }
  }

  lemma {:induction false} PublishedWasReviewedFrom(c: Catalog, ops: seq<Op>, p: Id)
    requires CatalogInv(c) && Runs(c, ops) && (p in c.products ==> c.products[p].status == Draft)
    requires p in After(c, ops).products && After(c, ops).products[p].status in {Published, Archived}
    ensures OnceInReview(c, ops, p) || ShelvedAsDraft(c, ops, p)
    decreases |ops|
  {
    hide Step, Enabled, RefsOk, NoSpan, OffersLinked, ProductChainsOk, VariantChainsOk;
    if ops != [] {
      StepKeepsInv(c, ops[0]);
      FromDraft(c, ops[0], p);
      var next := Step(c, ops[0]);
      if p in next.products && next.products[p].status == Merged {
        MergedForGood(next, ops[1..], p);
      } else if p in next.products && next.products[p].status != Draft {
        if next.products[p].status == PendingReview { assert OnceInReview(next, ops[1..], p); }
      } else {
        PublishedWasReviewedFrom(next, ops[1..], p);
      }
    }
  }

  /** Publication follows review, unless the product was put on the shelf as a draft. */
  lemma PublishedWasReviewed(ops: seq<Op>, p: Id)
    requires Runs(Empty(), ops)
    requires p in After(Empty(), ops).products && After(Empty(), ops).products[p].status == Published
    requires !ShelvedAsDraft(Empty(), ops, p)
    ensures OnceInReview(Empty(), ops, p)
  {
    PublishedWasReviewedFrom(Empty(), ops, p);
  }

  /** That exception is needed: any draft can be shelved and then published, with no review and no variant. */
  lemma ShelvedDraftCanBePublished(c: Catalog, p: Id)
    requires CatalogInv(c) && p in c.products && c.products[p].status == Draft
    ensures var ops := [Transition(p, Archived, true), Transition(p, Published, true)];
            && Runs(c, ops) && ShelvedAsDraft(c, ops, p) && !OnceInReview(c, ops, p)
            && After(c, ops) == c.(products := c.products[p := Product(Published, c.products[p].mergedInto)])
  {
    hide Step, Enabled, NoSpan, OffersLinked, ProductChainsOk, VariantChainsOk, RefsOk;
    var shelved := c.(products := c.products[p := c.products[p].(status := Archived)]);
    var shown := c.(products := c.products[p := c.products[p].(status := Published)]);
    ChangesStatus(c, p, Archived);
    assert shown == shelved.(products := shelved.products[p := shelved.products[p].(status := Published)]);
    ChangesStatus(shelved, p, Published);
    ShelvedRun(c, shelved, shown, p);
  }

  lemma ChangesStatus(c: Catalog, p: Id, to: Status)
    requires CatalogInv(c) && p in c.products
    requires (c.products[p].status == Draft && to == Archived) || (c.products[p].status == Archived && to == Published)
    ensures Enabled(c, Transition(p, to, true))
    ensures Step(c, Transition(p, to, true)) == c.(products := c.products[p := c.products[p].(status := to)])
    ensures CatalogInv(Step(c, Transition(p, to, true)))
  {
    hide NoSpan, OffersLinked, ProductChainsOk, VariantChainsOk;
    StepKeepsInv(c, Transition(p, to, true));
  }

  lemma ShelvedRun(c: Catalog, shelved: Catalog, shown: Catalog, p: Id)
    requires CatalogInv(c) && CatalogInv(shelved) && CatalogInv(shown)
    requires p in c.products && p in shelved.products && p in shown.products
    requires c.products[p].status == Draft && shelved.products[p].status == Archived && shown.products[p].status == Published
    requires Enabled(c, Transition(p, Archived, true)) && Step(c, Transition(p, Archived, true)) == shelved
    requires Enabled(shelved, Transition(p, Published, true)) && Step(shelved, Transition(p, Published, true)) == shown
    ensures var ops := [Transition(p, Archived, true), Transition(p, Published, true)];
            Runs(c, ops) && ShelvedAsDraft(c, ops, p) && !OnceInReview(c, ops, p) && After(c, ops) == shown
  {
    hide CatalogInv, Step, Enabled;
    var ops := [Transition(p, Archived, true), Transition(p, Published, true)];
    assert ops[1..][0] == ops[1] && ops[1..][1..] == [];
    assert Runs(shown, []) && After(shown, []) == shown && !OnceInReview(shown, [], p);
    assert Runs(shelved, ops[1..]) && After(shelved, ops[1..]) == shown && !OnceInReview(shelved, ops[1..], p);
  }
}
