/** Rebuilding a hidden hero's ordinary cards from a sampled loadout. */
module Loadout {
  import opened Common

  datatype Color = Red | Blue | Green | OtherColor(name: string)

  datatype Tier = I | II | III | OtherTier(name: string)

  datatype CardState = InHand | InDiscard | Resolved | IsItem | Retired | InDeck | OtherState(name: string)

  datatype Card = Card(color: Color, tier: Tier, state: CardState, facedown: bool, playedThisRound: bool)

  /** A hero's cards: the deck lists all of them, the zones hold card ids.  A card object
      is shared by the lists that name it, so its attributes are kept once, by id. */
  datatype HeroCards = HeroCards(deck: seq<string>, cards: map<string, Card>, hand: seq<string>, discard: seq<string>,
                                 played: seq<Option<string>>, current: Option<string>, extra: Option<string>)

  /** The upgraded cards and the cards turned into items. */
  datatype Hypothesis = Hypothesis(active: set<string>, items: set<string>)

  // Ordinary cards

  function TierNumber(tier: Tier): nat {
    match tier
    case I => 1
    case II => 2
    case III => 3
    case OtherTier(_) => 0
  }

  predicate IsOrdinary(card: Card) {
    !card.color.OtherColor? && !card.tier.OtherTier?
  }

  function OrdinaryOf(deck: seq<string>, cards: map<string, Card>): seq<string> {
    if deck == [] then []
    else
      var before, id := OrdinaryOf(deck[..|deck| - 1], cards), deck[|deck| - 1];
      if id in cards && IsOrdinary(cards[id]) then before + [id] else before
  }

  predicate Distinct(s: seq<string>) {
    forall i, j :: 0 <= i < j < |s| ==> s[i] != s[j]
  }

  lemma {:induction false} OrdinaryAre(deck: seq<string>, cards: map<string, Card>)
    ensures forall id :: id in OrdinaryOf(deck, cards) <==> id in deck && id in cards && IsOrdinary(cards[id])
    ensures Distinct(deck) ==> Distinct(OrdinaryOf(deck, cards))
  {
    if deck != [] {
      var init, last := deck[..|deck| - 1], deck[|deck| - 1];
      assert deck == init + [last];
      OrdinaryAre(init, cards);
      assert Distinct(deck) ==> last !in init;
    }
  }

  /** Without the ordinary cards. */
  function Specials(zone: seq<string>, ordinary: seq<string>): seq<string> {
    if zone == [] then []
    else
      var before, id := Specials(zone[..|zone| - 1], ordinary), zone[|zone| - 1];
      if id in ordinary then before else before + [id]
  }

  lemma {:induction false} SpecialsAre(zone: seq<string>, ordinary: seq<string>)
    ensures forall id :: id in Specials(zone, ordinary) <==> id in zone && id !in ordinary
  {
    if zone != [] {
      assert zone == zone[..|zone| - 1] + [zone[|zone| - 1]];
      SpecialsAre(zone[..|zone| - 1], ordinary);
    }
  }

  // The active cards

  function Upgraded(hero: HeroCards, h: Hypothesis): set<Color> {
    set id | id in h.active && id in hero.cards :: hero.cards[id].color
  }

  /** The upgraded cards, and the tier I cards of colors without an upgrade. */
  function Active(hero: HeroCards, h: Hypothesis): set<string> {
    h.active + set id | id in OrdinaryOf(hero.deck, hero.cards) && id in hero.cards
                        && hero.cards[id].tier.I? && hero.cards[id].color !in Upgraded(hero, h)
  }

  /** The tier number of the first active card of a color. */
  function ActiveTier(ordinary: seq<string>, cards: map<string, Card>, active: set<string>, color: Color): nat {
    if ordinary == [] then 0
    else if ordinary[0] in active && ordinary[0] in cards && cards[ordinary[0]].color == color
    then TierNumber(cards[ordinary[0]].tier)
    else ActiveTier(ordinary[1..], cards, active, color)
  }

  /** What the code looks up is there, and looking it up is unambiguous: upgraded cards are
      ordinary cards of the deck, and every ordinary color has one active card. */
  ghost predicate WellFormed(hero: HeroCards, h: Hypothesis) {
    var ordinary, active := OrdinaryOf(hero.deck, hero.cards), Active(hero, h);
    && Distinct(hero.deck)
    && (forall id :: id in hero.deck ==> id in hero.cards)
    && (forall id :: id in h.active ==> id in ordinary)
    && (forall id :: id in ordinary && id in hero.cards ==> HasActive(hero, h, hero.cards[id].color))
    && (forall a, b :: a in active && b in active && SameColor(hero.cards, a, b) ==> a == b)
  }

  predicate SameColor(cards: map<string, Card>, a: string, b: string) {
    a in cards && b in cards && cards[a].color == cards[b].color
  }

  ghost predicate HasActive(hero: HeroCards, h: Hypothesis, color: Color) {
    exists id :: id in Active(hero, h) && id in hero.cards && hero.cards[id].color == color
  }

  /** A card's position among the played cards: the last one, or -1. */
  function Position(played: seq<Option<string>>, id: string): (i: int)
    ensures -1 <= i < |played| && (i >= 0 ==> played[i] == Some(id))
    ensures forall j :: i < j < |played| ==> played[j] != Some(id)
  {
    if played == [] then -1
    else if played[|played| - 1] == Some(id) then |played| - 1
    else Position(played[..|played| - 1], id)
  }

  // Where each ordinary card goes

  function Fate(hero: HeroCards, h: Hypothesis, id: string): CardState
    requires id in hero.cards
  {
    if id in h.items then IsItem
    else if id in Active(hero, h) then
      if Position(hero.played, id) >= 0 then Resolved
      else if id in hero.discard then InDiscard
      else InHand
    else if TierNumber(hero.cards[id].tier)
            < ActiveTier(OrdinaryOf(hero.deck, hero.cards), hero.cards, Active(hero, h), hero.cards[id].color)
    then Retired
    else InDeck
  }

  function Rebuilt(hero: HeroCards, h: Hypothesis, id: string): Card
    requires id in hero.cards
  {
    var fate := Fate(hero, h, id);
    hero.cards[id].(state := fate, facedown := false, playedThisRound := fate == Resolved || fate == InDiscard)
  }

  /** The given cards whose fate it is to be in the given state. */
  function WithFate(hero: HeroCards, h: Hypothesis, ids: seq<string>, state: CardState): seq<string> {
    if ids == [] then []
    else
      var before, id := WithFate(hero, h, ids[..|ids| - 1], state), ids[|ids| - 1];
      if id in hero.cards && Fate(hero, h, id) == state then before + [id] else before
  }

  /** A played position after rebuilding the first n ordinary cards: special cards stay,
      resolved ordinary cards are put back, other ordinary cards are gone. */
  predicate PutBack(hero: HeroCards, h: Hypothesis, ordinary: seq<string>, i: nat)
    requires i < |hero.played|
  {
    hero.played[i].Some? &&
      var id := hero.played[i].value;
      id in ordinary && id in hero.cards && Fate(hero, h, id) == Resolved && Position(hero.played, id) == i
  }

  function PlayedAt(hero: HeroCards, h: Hypothesis, all: seq<string>, done: seq<string>, i: nat): Option<string>
    requires i < |hero.played|
  {
    if hero.played[i].Some? && hero.played[i].value in all && !PutBack(hero, h, done, i) then None else hero.played[i]
  }

  function Visible(card: Option<string>, ordinary: seq<string>): Option<string> {
    if card.Some? && card.value in ordinary then None else card
  }

  function RebuiltCards(hero: HeroCards, h: Hypothesis, done: seq<string>): map<string, Card> {
    map id | id in hero.cards :: if id in done then Rebuilt(hero, h, id) else hero.cards[id]
  }

  function PlayedAfter(hero: HeroCards, h: Hypothesis, all: seq<string>, done: seq<string>)
    : (played: seq<Option<string>>)
    ensures |played| == |hero.played|
  {
    seq(|hero.played|, i requires 0 <= i < |hero.played| => PlayedAt(hero, h, all, done, i))
  }

  /** The hero after the first n ordinary cards were placed. */
  function Placed(hero: HeroCards, h: Hypothesis, n: nat): HeroCards
    requires n <= |OrdinaryOf(hero.deck, hero.cards)|
  {
    var all := OrdinaryOf(hero.deck, hero.cards);
    var done := all[..n];
    HeroCards(hero.deck,
              RebuiltCards(hero, h, done),
              Specials(hero.hand, all) + WithFate(hero, h, done, InHand),
              Specials(hero.discard, all) + WithFate(hero, h, done, InDiscard),
              PlayedAfter(hero, h, all, done),
              Visible(hero.current, all), Visible(hero.extra, all))
  }

  function Applied(hero: HeroCards, h: Hypothesis): HeroCards {
    Placed(hero, h, |OrdinaryOf(hero.deck, hero.cards)|)
  }

  /** What placing one card does. */
  function PutOne(hero: HeroCards, h: Hypothesis, was: HeroCards, id: string): HeroCards
    requires id in hero.cards && |was.played| == |hero.played|
  {
    var fate, position := Fate(hero, h, id), Position(hero.played, id);
    was.(cards := was.cards[id := Rebuilt(hero, h, id)],
         hand := was.hand + (if fate == InHand then [id] else []),
         discard := was.discard + (if fate == InDiscard then [id] else []),
         played := if fate == Resolved && position >= 0 then was.played[position := Some(id)] else was.played)
  }

  lemma PlaceOne(hero: HeroCards, h: Hypothesis, n: nat)
    requires Distinct(hero.deck) && n < |OrdinaryOf(hero.deck, hero.cards)|
    ensures var id := OrdinaryOf(hero.deck, hero.cards)[n];
            id in hero.cards && Placed(hero, h, n + 1) == PutOne(hero, h, Placed(hero, h, n), id)
  {
    var all := OrdinaryOf(hero.deck, hero.cards);
    OrdinaryIsCard(hero, n);
    PlayedOne(hero, h, n);
    CardsOne(hero, h, n);
    ZoneOne(hero, h, hero.hand, all, n, InHand);
    ZoneOne(hero, h, hero.discard, all, n, InDiscard);
  }

  lemma ZoneOne(hero: HeroCards, h: Hypothesis, zone: seq<string>, all: seq<string>, n: nat, state: CardState)
    requires n < |all| && all[n] in hero.cards
    ensures Specials(zone, all) + WithFate(hero, h, all[..n + 1], state)
         == Specials(zone, all) + WithFate(hero, h, all[..n], state)
             + (if Fate(hero, h, all[n]) == state then [all[n]] else [])
  {
    FatesSnoc(hero, h, all, n, state);
  }

  lemma OrdinaryIsCard(hero: HeroCards, n: nat)
    requires n < |OrdinaryOf(hero.deck, hero.cards)|
    ensures OrdinaryOf(hero.deck, hero.cards)[n] in hero.cards
  {
    OrdinaryAre(hero.deck, hero.cards);
    assert OrdinaryOf(hero.deck, hero.cards)[n] in OrdinaryOf(hero.deck, hero.cards);
  }

  lemma FatesSnoc(hero: HeroCards, h: Hypothesis, all: seq<string>, n: nat, state: CardState)
    requires n < |all| && all[n] in hero.cards
    ensures WithFate(hero, h, all[..n + 1], state)
         == WithFate(hero, h, all[..n], state) + (if Fate(hero, h, all[n]) == state then [all[n]] else [])
  {
    assert all[..n + 1][..n] == all[..n];
  }

  lemma CardsOne(hero: HeroCards, h: Hypothesis, n: nat)
    requires n < |OrdinaryOf(hero.deck, hero.cards)| && OrdinaryOf(hero.deck, hero.cards)[n] in hero.cards
    ensures var id := OrdinaryOf(hero.deck, hero.cards)[n];
            var all := OrdinaryOf(hero.deck, hero.cards);
            RebuiltCards(hero, h, all[..n + 1]) == RebuiltCards(hero, h, all[..n])[id := Rebuilt(hero, h, id)]
  {
    var all := OrdinaryOf(hero.deck, hero.cards);
    assert all[..n + 1] == all[..n] + [all[n]];
  }

  lemma PlayedOne(hero: HeroCards, h: Hypothesis, n: nat)
    requires Distinct(hero.deck) && n < |OrdinaryOf(hero.deck, hero.cards)|
    ensures var all := OrdinaryOf(hero.deck, hero.cards);
            all[n] in hero.cards &&
            var position, was := Position(hero.played, all[n]), PlayedAfter(hero, h, all, all[..n]);
            PlayedAfter(hero, h, all, all[..n + 1])
            == if Fate(hero, h, all[n]) == Resolved && position >= 0 then was[position := Some(all[n])] else was
  {
    OrdinaryAre(hero.deck, hero.cards);
    var all := OrdinaryOf(hero.deck, hero.cards);
    var id := all[n];
    assert id in all;
    assert all[..n + 1] == all[..n] + [id];
  }

  lemma NothingPlaced(hero: HeroCards, h: Hypothesis, played: seq<Option<string>>)
    requires |played| == |hero.played|
    requires forall i :: 0 <= i < |played| ==> played[i] == Visible(hero.played[i], OrdinaryOf(hero.deck, hero.cards))
    ensures var all := OrdinaryOf(hero.deck, hero.cards);
            Placed(hero, h, 0) == HeroCards(hero.deck, hero.cards, Specials(hero.hand, all),
                                            Specials(hero.discard, all),
                                            played, Visible(hero.current, all), Visible(hero.extra, all))
  {
    var all := OrdinaryOf(hero.deck, hero.cards);
    assert all[..0] == [];
    assert PlayedAfter(hero, h, all, []) == played;
    assert RebuiltCards(hero, h, []) == hero.cards;
  }

  class Hero {
    var deck: seq<string>
    var cards: map<string, Card>
    var hand: seq<string>
    var discard: seq<string>
    var played: seq<Option<string>>
    var current: Option<string>
    var extra: Option<string>

    function View(): HeroCards
      reads this
    {
      HeroCards(deck, cards, hand, discard, played, current, extra)
    }

    constructor (hero: HeroCards)
      ensures View() == hero
    {
      deck, cards, hand, discard := hero.deck, hero.cards, hero.hand, hero.discard;
      played, current, extra := hero.played, hero.current, hero.extra;
    }

    /** Take the ordinary cards out of every zone and put each back where the hypothesis
        and the public record place it. */
    method ApplyHypothesis(h: Hypothesis)
      requires WellFormed(View(), h)
      modifies this
      ensures View() == Applied(old(View()), h)
    {
      var before := View();
      var ordinary := OrdinaryOf(deck, cards);
      var active := Active(before, h);
      OrdinaryAre(deck, cards);
      hand, discard := Specials(hand, ordinary), Specials(discard, ordinary);
      played := seq(|played|, i requires 0 <= i < |before.played| => Visible(before.played[i], ordinary));
      current, extra := Visible(current, ordinary), Visible(extra, ordinary);
      NothingPlaced(before, h, played);
      for n := 0 to |ordinary|
        invariant View() == Placed(before, h, n)
      {
        PlaceOne(before, h, n);
        Place(before, h, ordinary, active, ordinary[n]);
      }
    }

    /** Place one ordinary card. */
    method Place(before: HeroCards, h: Hypothesis, ordinary: seq<string>, active: set<string>, id: string)
      requires ordinary == OrdinaryOf(before.deck, before.cards) && active == Active(before, h)
      requires id in before.cards && id in cards && |played| == |before.played|
      requires SameFace(cards[id], before.cards[id])
      modifies this
      ensures View() == PutOne(before, h, old(View()), id)
    {
      var card := cards[id].(facedown := false, playedThisRound := false);
      if id in h.items {
        card := card.(state := IsItem);
      } else if id in active {
        if Position(before.played, id) >= 0 {
          card := card.(state := Resolved, playedThisRound := true);
          played := played[Position(before.played, id) := Some(id)];
        } else if id in before.discard {
          card := card.(state := InDiscard, playedThisRound := true);
          discard := discard + [id];
        } else {
          card := card.(state := InHand);
          hand := hand + [id];
        }
      } else if TierNumber(card.tier) < ActiveTier(ordinary, before.cards, active, card.color) {
        card := card.(state := Retired);
      } else {
        card := card.(state := InDeck);
      }
      cards := cards[id := card];
    }
  }

  predicate SameFace(a: Card, b: Card) {
    a.color == b.color && a.tier == b.tier
  }

  // What the rebuilt hero looks like

  lemma {:induction false} FatesAre(hero: HeroCards, h: Hypothesis, ids: seq<string>, state: CardState, id: string)
    requires Distinct(ids)
    ensures multiset(WithFate(hero, h, ids, state))[id]
         == if id in ids && id in hero.cards && Fate(hero, h, id) == state then 1 else 0
  {
    if ids != [] {
      var init, last := ids[..|ids| - 1], ids[|ids| - 1];
      assert ids == init + [last] && last !in init;
      FatesAre(hero, h, init, state, id);
    }
  }

  lemma NoSpecialIsOrdinary(zone: seq<string>, ordinary: seq<string>, id: string)
    requires id in ordinary
    ensures multiset(Specials(zone, ordinary))[id] == 0
  {
    SpecialsAre(zone, ordinary);
    assert id !in Specials(zone, ordinary);
  }

  /** A rebuilt card lies in exactly the zone its state names, once, and in neither turn slot. */
  ghost predicate InOneZone(hero: HeroCards, r: HeroCards, id: string) {
    && id in r.cards && !r.cards[id].facedown
    && multiset(r.hand)[id] == (if r.cards[id].state == InHand then 1 else 0)
    && multiset(r.discard)[id] == (if r.cards[id].state == InDiscard then 1 else 0)
    && (forall i :: 0 <= i < |r.played| ==>
          (r.played[i] == Some(id) <==> r.cards[id].state == Resolved && i == Position(hero.played, id)))
    && (r.cards[id].state == Resolved ==> Position(hero.played, id) >= 0)
    && r.current != Some(id) && r.extra != Some(id)
    && (r.cards[id].playedThisRound <==> r.cards[id].state == Resolved || r.cards[id].state == InDiscard)
  }

  /** Every ordinary card lies in exactly the zone its state names. */
  lemma EachCardInOneZone(hero: HeroCards, h: Hypothesis, id: string)
    requires Distinct(hero.deck) && id in OrdinaryOf(hero.deck, hero.cards)
    ensures InOneZone(hero, Applied(hero, h), id)
  {
    var all := OrdinaryOf(hero.deck, hero.cards);
    OrdinaryFacts(hero, id);
    assert all[..|all|] == all;
    InZone(hero, h, all, hero.hand, InHand, id);
    InZone(hero, h, all, hero.discard, InDiscard, id);
    PlayedCard(hero, h, all, id);
  }

  lemma OrdinaryFacts(hero: HeroCards, id: string)
    requires Distinct(hero.deck) && id in OrdinaryOf(hero.deck, hero.cards)
    ensures id in hero.cards && Distinct(OrdinaryOf(hero.deck, hero.cards))
  {
    OrdinaryAre(hero.deck, hero.cards);
  }

  lemma InZone(hero: HeroCards, h: Hypothesis, all: seq<string>, zone: seq<string>, state: CardState, id: string)
    requires Distinct(all) && id in all && id in hero.cards
    ensures multiset(Specials(zone, all) + WithFate(hero, h, all, state))[id]
         == if Fate(hero, h, id) == state then 1 else 0
  {
    FatesAre(hero, h, all, state, id);
    NoSpecialIsOrdinary(zone, all, id);
  }

  lemma PlayedCard(hero: HeroCards, h: Hypothesis, all: seq<string>, id: string)
    requires id in all && id in hero.cards
    ensures var played := PlayedAfter(hero, h, all, all);
            forall i :: 0 <= i < |played| ==>
              (played[i] == Some(id) <==> Fate(hero, h, id) == Resolved && i == Position(hero.played, id))
  {
  }

  lemma {:induction false} SpecialsOfPlaced(zone: seq<string>, placed: seq<string>, ordinary: seq<string>)
    requires forall id :: id in placed ==> id in ordinary
    ensures Specials(zone + placed, ordinary) == Specials(zone, ordinary)
  {
    if placed == [] {
      assert zone + placed == zone;
    } else {
      var init := placed[..|placed| - 1];
      assert forall id :: id in init ==> id in placed;
      SpecialsOfPlaced(zone, init, ordinary);
      assert (zone + placed)[..|zone + placed| - 1] == zone + init;
      assert placed[|placed| - 1] in placed;
    }
  }

  lemma {:induction false} SpecialsTwice(zone: seq<string>, ordinary: seq<string>)
    ensures Specials(Specials(zone, ordinary), ordinary) == Specials(zone, ordinary)
  {
    if zone != [] {
      var before, last := Specials(zone[..|zone| - 1], ordinary), zone[|zone| - 1];
      SpecialsTwice(zone[..|zone| - 1], ordinary);
      assert (before + [last])[..|before|] == before;
    }
  }

  lemma {:induction false} FatesAmong(hero: HeroCards, h: Hypothesis, ids: seq<string>, state: CardState)
    ensures forall id :: id in WithFate(hero, h, ids, state) ==> id in ids
  {
    if ids != [] {
      assert ids == ids[..|ids| - 1] + [ids[|ids| - 1]];
      FatesAmong(hero, h, ids[..|ids| - 1], state);
    }
  }

  /** Special cards keep their attributes, their order in hand and discard pile, and their
      played positions; no position is added or removed. */
  lemma SpecialsAreKept(hero: HeroCards, h: Hypothesis)
    ensures var r, all := Applied(hero, h), OrdinaryOf(hero.deck, hero.cards);
            && Specials(r.hand, all) == Specials(hero.hand, all)
            && Specials(r.discard, all) == Specials(hero.discard, all)
            && |r.played| == |hero.played|
            && (forall i :: 0 <= i < |hero.played| && (hero.played[i].None? || hero.played[i].value !in all) ==>
                  r.played[i] == hero.played[i])
            && (forall id :: id in hero.cards && id !in all ==> id in r.cards && r.cards[id] == hero.cards[id])
  {
    var all := OrdinaryOf(hero.deck, hero.cards);
    assert all[..|all|] == all;
    FatesAmong(hero, h, all, InHand);
    FatesAmong(hero, h, all, InDiscard);
    SpecialsOfPlaced(Specials(hero.hand, all), WithFate(hero, h, all, InHand), all);
    SpecialsOfPlaced(Specials(hero.discard, all), WithFate(hero, h, all, InDiscard), all);
    SpecialsTwice(hero.hand, all);
    SpecialsTwice(hero.discard, all);
  }

  lemma {:induction false} FirstActiveTier(ordinary: seq<string>, cards: map<string, Card>, active: set<string>,
                                           a: string)
    requires a in ordinary && a in active && a in cards
    requires forall b :: b in ordinary && b in active && SameColor(cards, a, b) ==> b == a
    ensures ActiveTier(ordinary, cards, active, cards[a].color) == TierNumber(cards[a].tier)
  {
    assert ordinary == [ordinary[0]] + ordinary[1..];
    assert ordinary[0] in ordinary;
    if ordinary[0] != a {
      FirstActiveTier(ordinary[1..], cards, active, a);
    }
  }

  /** A card that is neither active nor an item is retired exactly when its color's active
      card has a higher tier, and stays in the deck otherwise. */
  lemma LowerTiersRetire(hero: HeroCards, h: Hypothesis, id: string, a: string)
    requires WellFormed(hero, h) && id in OrdinaryOf(hero.deck, hero.cards)
    requires id !in h.items && id !in Active(hero, h) && a in Active(hero, h) && SameColor(hero.cards, a, id)
    ensures var r := Applied(hero, h);
            && id in r.cards
            && r.cards[id].state
            == if TierNumber(hero.cards[id].tier) < TierNumber(hero.cards[a].tier) then Retired else InDeck
  {
    var all := OrdinaryOf(hero.deck, hero.cards);
    assert all[..|all|] == all;
    FirstActiveTier(all, hero.cards, Active(hero, h), a);
  }

  // Non-interference

  /** The heroes differ at most in what the observer cannot see: the ordinary cards in hand
      and the recorded states of ordinary cards. */
  ghost predicate LooksLike(a: HeroCards, b: HeroCards) {
    var all := OrdinaryOf(a.deck, a.cards);
    && a.deck == b.deck && a.cards.Keys == b.cards.Keys
    && (forall id :: id in a.cards ==> SameFace(a.cards[id], b.cards[id]))
    && (forall id :: id in a.cards && id !in all ==> a.cards[id] == b.cards[id])
    && a.played == b.played && a.discard == b.discard
    && Specials(a.hand, all) == Specials(b.hand, all)
    && Visible(a.current, all) == Visible(b.current, all) && Visible(a.extra, all) == Visible(b.extra, all)
  }

  lemma {:induction false} SameOrdinary(deck: seq<string>, a: map<string, Card>, b: map<string, Card>)
    requires a.Keys == b.Keys && forall id :: id in a ==> SameFace(a[id], b[id])
    ensures OrdinaryOf(deck, a) == OrdinaryOf(deck, b)
  {
    if deck != [] {
      SameOrdinary(deck[..|deck| - 1], a, b);
      assert deck[|deck| - 1] in a.Keys <==> deck[|deck| - 1] in b.Keys;
    }
  }

  lemma {:induction false} SameTier(ordinary: seq<string>, a: map<string, Card>, b: map<string, Card>,
                                    active: set<string>, color: Color)
    requires a.Keys == b.Keys && forall id :: id in a ==> SameFace(a[id], b[id])
    ensures ActiveTier(ordinary, a, active, color) == ActiveTier(ordinary, b, active, color)
  {
    if ordinary != [] {
      assert ordinary[0] in a.Keys <==> ordinary[0] in b.Keys;
      SameTier(ordinary[1..], a, b, active, color);
    }
  }

  lemma SameActive(a: HeroCards, b: HeroCards, h: Hypothesis)
    requires LooksLike(a, b)
    ensures Active(a, h) == Active(b, h) && OrdinaryOf(a.deck, a.cards) == OrdinaryOf(b.deck, b.cards)
  {
    SameOrdinary(a.deck, a.cards, b.cards);
    assert forall id :: id in a.cards.Keys <==> id in b.cards.Keys;
    assert Upgraded(a, h) == Upgraded(b, h);
  }

  lemma SameFate(a: HeroCards, b: HeroCards, h: Hypothesis, id: string)
    requires LooksLike(a, b) && id in a.cards
    ensures id in b.cards && Fate(a, h, id) == Fate(b, h, id) && Rebuilt(a, h, id) == Rebuilt(b, h, id)
  {
    assert id in b.cards.Keys;
    SameActive(a, b, h);
    SameTier(OrdinaryOf(a.deck, a.cards), a.cards, b.cards, Active(a, h), a.cards[id].color);
  }

  lemma {:induction false} SameFates(a: HeroCards, b: HeroCards, h: Hypothesis, ids: seq<string>, state: CardState)
    requires LooksLike(a, b)
    ensures WithFate(a, h, ids, state) == WithFate(b, h, ids, state)
  {
    if ids != [] {
      var last := ids[|ids| - 1];
      SameFates(a, b, h, ids[..|ids| - 1], state);
      assert last in a.cards.Keys <==> last in b.cards.Keys;
      if last in a.cards {
        SameFate(a, b, h, last);
      }
    }
  }

  lemma SamePlayed(a: HeroCards, b: HeroCards, h: Hypothesis, all: seq<string>)
    requires LooksLike(a, b)
    ensures PlayedAfter(a, h, all, all) == PlayedAfter(b, h, all, all)
  {
    forall i | 0 <= i < |a.played| ensures PlayedAt(a, h, all, all, i) == PlayedAt(b, h, all, all, i) {
      if a.played[i].Some? {
        var id := a.played[i].value;
        assert id in a.cards.Keys <==> id in b.cards.Keys;
        if id in a.cards {
          SameFate(a, b, h, id);
        }
      }
    }
  }

  /** What the actual ordinary hand was leaves no trace: heroes that look alike end identical. */
  lemma HandsDoNotInterfere(a: HeroCards, b: HeroCards, h: Hypothesis)
    requires LooksLike(a, b)
    ensures Applied(a, h) == Applied(b, h)
  {
    var all := OrdinaryOf(a.deck, a.cards);
    SameActive(a, b, h);
    assert all[..|all|] == all;
    SameFates(a, b, h, all, InHand);
    SameFates(a, b, h, all, InDiscard);
    SamePlayed(a, b, h, all);
    assert RebuiltCards(a, h, all) == RebuiltCards(b, h, all) by {
      assert forall id :: id in a.cards.Keys <==> id in b.cards.Keys;
      forall id | id in a.cards ensures Rebuilt(a, h, id) == Rebuilt(b, h, id) {
        SameFate(a, b, h, id);
      }
    }
  }

  // What becomes of each card

  predicate NamedColor(color: Color) {
    color == Red || color == Blue || color == Green
  }

  predicate NamedTier(tier: Tier) {
    tier == I || tier == II || tier == III
  }

  /** A card of the deck is rebuilt exactly when its color and tier are ordinary ones. */
  lemma OrdinaryMeans(hero: HeroCards, id: string)
    ensures id in OrdinaryOf(hero.deck, hero.cards) <==>
              && id in hero.deck && id in hero.cards
              && NamedColor(hero.cards[id].color) && NamedTier(hero.cards[id].tier)
  {
    OrdinaryAre(hero.deck, hero.cards);
  }

  /** The hypothesis makes the card active, or it is a tier I card whose color it leaves without
      an upgrade. */
  predicate IsActiveCard(hero: HeroCards, h: Hypothesis, id: string)
    requires id in hero.cards
  {
    || id in h.active
    || (hero.cards[id].tier == I
        && forall u :: u in h.active && u in hero.cards ==> hero.cards[u].color != hero.cards[id].color)
  }

  lemma ActiveMeans(hero: HeroCards, h: Hypothesis, id: string)
    requires id in OrdinaryOf(hero.deck, hero.cards) && id in hero.cards
    ensures id in Active(hero, h) <==> IsActiveCard(hero, h, id)
  {
    if hero.cards[id].color in Upgraded(hero, h) {
      var u :| u in h.active && u in hero.cards && hero.cards[u].color == hero.cards[id].color;
    }
  }

  lemma PlayedMeans(played: seq<Option<string>>, id: string)
    ensures Position(played, id) >= 0 <==> Some(id) in played
  {
  }

  /** Where an active card that is no item goes. */
  predicate DealtFromEvidence(hero: HeroCards, r: HeroCards, id: string)
    requires id in r.cards
  {
    if Some(id) in hero.played then r.cards[id].state == Resolved && Some(id) in r.played
    else if id in hero.discard then r.cards[id].state == InDiscard && id in r.discard
    else r.cards[id].state == InHand && multiset(r.hand)[id] == 1
  }

  /** Items become items and leave every zone; an active card is resolved where it was last
      played, else discarded if it was discarded, else dealt to the hand. */
  lemma CardsAreDealt(hero: HeroCards, h: Hypothesis, id: string)
    requires WellFormed(hero, h) && id in OrdinaryOf(hero.deck, hero.cards)
    ensures id in hero.cards && id in Applied(hero, h).cards
    ensures var r := Applied(hero, h);
            && (id in h.items ==>
                  r.cards[id].state == IsItem && id !in r.hand && id !in r.discard && Some(id) !in r.played)
            && (id !in h.items && IsActiveCard(hero, h, id) ==> DealtFromEvidence(hero, r, id))
  {
    var r, all := Applied(hero, h), OrdinaryOf(hero.deck, hero.cards);
    EachCardInOneZone(hero, h, id);
    ActiveMeans(hero, h, id);
    PlayedMeans(hero.played, id);
    assert all[..|all|] == all;
    StateIsFate(hero, h, id);
    var i := Position(hero.played, id);
    if id !in h.items && IsActiveCard(hero, h, id) && i >= 0 {
      assert r.played[i] == Some(id);
    }
    InZoneOnce(r.hand, id);
    InZoneOnce(r.discard, id);
  }

  lemma InZoneOnce(zone: seq<string>, id: string)
    ensures id in zone <==> multiset(zone)[id] > 0
  {
    assert id in multiset(zone) <==> id in zone;
  }

  lemma StateIsFate(hero: HeroCards, h: Hypothesis, id: string)
    requires id in hero.cards && id in OrdinaryOf(hero.deck, hero.cards)
    ensures id in Applied(hero, h).cards && Applied(hero, h).cards[id].state == Fate(hero, h, id)
  {
    var all := OrdinaryOf(hero.deck, hero.cards);
    assert all[..|all|] == all;
  }

  /** Tier I lies below II and III, tier II below III. */
  predicate TierBelow(a: Tier, b: Tier) {
    (a == I && (b == II || b == III)) || (a == II && b == III)
  }

  /** The active card of its color decides whether a card that is neither active nor an item has
      been outgrown. */
  lemma CardsAreOutgrown(hero: HeroCards, h: Hypothesis, id: string, a: string)
    requires WellFormed(hero, h) && id in OrdinaryOf(hero.deck, hero.cards) && a in OrdinaryOf(hero.deck, hero.cards)
    requires id in hero.cards && a in hero.cards && hero.cards[a].color == hero.cards[id].color
    requires id !in h.items && !IsActiveCard(hero, h, id) && IsActiveCard(hero, h, a)
    ensures var r := Applied(hero, h);
            && id in r.cards && id !in r.hand && id !in r.discard && Some(id) !in r.played
            && (r.cards[id].state == Retired <==> TierBelow(hero.cards[id].tier, hero.cards[a].tier))
            && (r.cards[id].state == InDeck <==> !TierBelow(hero.cards[id].tier, hero.cards[a].tier))
  {
    ActiveMeans(hero, h, id);
    ActiveMeans(hero, h, a);
    OrdinaryMeans(hero, id);
    OrdinaryMeans(hero, a);
    LowerTiersRetire(hero, h, id, a);
    EachCardInOneZone(hero, h, id);
    InZoneOnce(Applied(hero, h).hand, id);
    InZoneOnce(Applied(hero, h).discard, id);
  }

  /** The dealt cards of a zone stand in deck order, after its special cards. */
  predicate DeckOrder(deck: seq<string>, placed: seq<string>) {
    forall p, q :: 0 <= p < q < |placed| ==> ComesBefore(deck, placed[p], placed[q])
  }

  predicate ComesBefore(deck: seq<string>, a: string, b: string) {
    exists i, j :: 0 <= i < j < |deck| && deck[i] == a && deck[j] == b
  }

  lemma ComesBeforeMore(deck: seq<string>, last: string, a: string, b: string)
    ensures ComesBefore(deck, a, b) ==> ComesBefore(deck + [last], a, b)
    ensures a in deck ==> ComesBefore(deck + [last], a, last)
  {
    var more := deck + [last];
    if ComesBefore(deck, a, b) {
      var i, j :| 0 <= i < j < |deck| && deck[i] == a && deck[j] == b;
      assert more[i] == a && more[j] == b;
    }
    if a in deck {
      var i :| 0 <= i < |deck| && deck[i] == a;
      assert more[i] == a && more[|deck|] == last;
    }
  }

  lemma {:induction false} OrdinaryInOrder(deck: seq<string>, cards: map<string, Card>)
    ensures DeckOrder(deck, OrdinaryOf(deck, cards))
  {
    if deck != [] {
      var init, last := deck[..|deck| - 1], deck[|deck| - 1];
      OrdinaryInOrder(init, cards);
      OrdinaryAre(init, cards);
      var before := OrdinaryOf(init, cards);
      assert deck == init + [last];
      forall a, b ensures ComesBefore(init, a, b) ==> ComesBefore(deck, a, b) {
        ComesBeforeMore(init, last, a, b);
      }
      forall p | 0 <= p < |before| ensures ComesBefore(deck, before[p], last) {
        assert before[p] in before;
        ComesBeforeMore(init, last, before[p], last);
      }
    }
  }

  lemma {:induction false} FatesInOrder(hero: HeroCards, h: Hypothesis, ids: seq<string>, state: CardState)
    ensures DeckOrder(ids, WithFate(hero, h, ids, state))
  {
    if ids != [] {
      var init, last := ids[..|ids| - 1], ids[|ids| - 1];
      FatesInOrder(hero, h, init, state);
      FatesAmong(hero, h, init, state);
      var before := WithFate(hero, h, init, state);
      assert ids == init + [last];
      forall a, b ensures ComesBefore(init, a, b) ==> ComesBefore(ids, a, b) {
        ComesBeforeMore(init, last, a, b);
      }
      forall p | 0 <= p < |before| ensures ComesBefore(ids, before[p], last) {
        assert before[p] in before;
        ComesBeforeMore(init, last, before[p], last);
      }
    }
  }

  lemma ComesBeforeIn(deck: seq<string>, ids: seq<string>, a: string, b: string)
    requires DeckOrder(deck, ids) && ComesBefore(ids, a, b)
    ensures ComesBefore(deck, a, b)
  {
    var i, j :| 0 <= i < j < |ids| && ids[i] == a && ids[j] == b;
    assert ComesBefore(deck, ids[i], ids[j]);
  }

  /** Dealt cards join hand and discard pile behind the special cards, in deck order. */
  lemma DealtInDeckOrder(hero: HeroCards, h: Hypothesis)
    ensures var r, all := Applied(hero, h), OrdinaryOf(hero.deck, hero.cards);
            && Specials(hero.hand, all) <= r.hand && DeckOrder(hero.deck, r.hand[|Specials(hero.hand, all)|..])
            && Specials(hero.discard, all) <= r.discard
            && DeckOrder(hero.deck, r.discard[|Specials(hero.discard, all)|..])
  {
    var r, all := Applied(hero, h), OrdinaryOf(hero.deck, hero.cards);
    assert all[..|all|] == all;
    OrdinaryInOrder(hero.deck, hero.cards);
    InDeckOrder(hero, h, all, InHand);
    InDeckOrder(hero, h, all, InDiscard);
    assert r.hand[|Specials(hero.hand, all)|..] == WithFate(hero, h, all, InHand);
    assert r.discard[|Specials(hero.discard, all)|..] == WithFate(hero, h, all, InDiscard);
  }

  lemma InDeckOrder(hero: HeroCards, h: Hypothesis, all: seq<string>, state: CardState)
    requires DeckOrder(hero.deck, all)
    ensures DeckOrder(hero.deck, WithFate(hero, h, all, state))
  {
    FatesInOrder(hero, h, all, state);
    var placed := WithFate(hero, h, all, state);
    forall p, q | 0 <= p < q < |placed| ensures ComesBefore(hero.deck, placed[p], placed[q]) {
      ComesBeforeIn(hero.deck, all, placed[p], placed[q]);
    }
  }
}
