/** What a unit makes of the opponents it sees: which one a warrior fires at
    (MyBot.DetermineOpponent) and whether a worker is being looked at by an
    armed opponent (MyBot.OpponentIsLooking). */
module Targeting {
  import opened LiaApi

  function OpponentIds(os: seq<OpponentInView>): set<int>
  {
    set o | o in os :: o.id
  }

  /** The first claimed opponent with the given id:
      `otherOpponents.stream().filter(o -> o.id == id).findFirst()`. */
  function FindClaimed(claimed: seq<OpponentInView>, id: int): (r: Option<OpponentInView>)
    ensures r.Some? <==> id in OpponentIds(claimed)
    ensures r.Some? ==> r.value in claimed && r.value.id == id
  {
    if claimed == [] then None
    else if claimed[0].id == id then Some(claimed[0])
    else
      assert forall o :: o in claimed <==> o == claimed[0] || o in claimed[1..];
      FindClaimed(claimed[1..], id)
  }

  /** The claim the search of DetermineOpponent stops at: walking the unit's
      own view in order, the claimed entry for the first id already claimed. */
  function FirstClaimedInView(view: seq<OpponentInView>, claimed: seq<OpponentInView>): Option<OpponentInView>
  {
    if view == [] then None
    else match FindClaimed(claimed, view[0].id)
      case Some(c) => Some(c)
      case None => FirstClaimedInView(view[1..], claimed)
  }

  /** The search finds a claim exactly when some opponent in view is claimed,
      and then it is a claimed opponent whose id is the first claimed id in
      the unit's own view order. */
  lemma {:induction false} FirstClaimedInViewSpec(view: seq<OpponentInView>, claimed: seq<OpponentInView>)
    ensures FirstClaimedInView(view, claimed).None? <==>
      forall i :: 0 <= i < |view| ==> view[i].id !in OpponentIds(claimed)
    ensures var r := FirstClaimedInView(view, claimed);
      r.Some? ==> (r.value in claimed &&
                   exists i :: 0 <= i < |view| && view[i].id == r.value.id &&
                     forall j :: 0 <= j < i ==> view[j].id !in OpponentIds(claimed))
  {
    if view != [] {
      FirstClaimedInViewSpec(view[1..], claimed);
      if FindClaimed(claimed, view[0].id).None? {
        var r := FirstClaimedInView(view, claimed);
        if r.Some? {
          var i :| 0 <= i < |view[1..]| && view[1..][i].id == r.value.id &&
            forall j :: 0 <= j < i ==> view[1..][j].id !in OpponentIds(claimed);
          assert view[i + 1].id == r.value.id;
          assert forall j :: 0 <= j < i + 1 ==> view[j].id !in OpponentIds(claimed) by {
            forall j | 0 <= j < i + 1 ensures view[j].id !in OpponentIds(claimed) {
              if j > 0 {
                assert view[j] == view[1..][j - 1];
              }
            }
          }
        }
        assert (forall i :: 0 <= i < |view| ==> view[i].id !in OpponentIds(claimed)) <==>
               (forall i :: 0 <= i < |view[1..]| ==> view[1..][i].id !in OpponentIds(claimed)) by {
          forall i | 0 <= i < |view[1..]| ensures view[1..][i] == view[i + 1] { }
        }
      }
    }
  }

  /** The opponent DetermineOpponent settles on: the claimed entry of the first
      claimed id in view, otherwise the first opponent in view. */
  function ChosenOpponent(unit: UnitData, claimed: seq<OpponentInView>): OpponentInView
    requires |unit.opponentsInView| > 0
  {
    match FirstClaimedInView(unit.opponentsInView, claimed)
    case Some(c) => c
    case None => unit.opponentsInView[0]
  }

  /** Lines 224-241: the first opponent in view whose id some earlier warrior
      of this tick already claimed, as the CLAIMED entry; otherwise the first
      opponent in view. */
  method DetermineOpponent(unit: UnitData, otherOpponents: seq<OpponentInView>) returns (opponent: OpponentInView)
    requires |unit.opponentsInView| > 0
    ensures opponent == ChosenOpponent(unit, otherOpponents)
    ensures opponent.id in OpponentIds(unit.opponentsInView)
    ensures (exists i :: 0 <= i < |unit.opponentsInView| && unit.opponentsInView[i].id in OpponentIds(otherOpponents))
            ==> opponent in otherOpponents
  {
    var view := unit.opponentsInView;
    opponent := view[0];
    var oppos := 0;
    while oppos < |view|
      invariant 0 <= oppos <= |view|
      invariant opponent == view[0]
      invariant FirstClaimedInView(view, otherOpponents) == FirstClaimedInView(view[oppos..], otherOpponents)
    {
      var curIterationId := view[oppos].id;
      var existingTarget := FindClaimed(otherOpponents, curIterationId);
      if existingTarget.Some? {
        opponent := existingTarget.value;
        break;
      }
      assert view[oppos..][1..] == view[oppos + 1..];
      oppos := oppos + 1;
    }
    FirstClaimedInViewSpec(view, otherOpponents);
    assert view[0] in view;
  }

  /** The claims of a tick after the given units have been processed: every
      warrior with opponents in view appends the opponent it settles on. */
  function ClaimsAfter(units: seq<UnitData>): seq<OpponentInView>
  {
    if units == [] then [] else ClaimsStep(ClaimsAfter(units[..|units| - 1]), units[|units| - 1])
  }

  /** What one unit does to the claims of the tick. */
  function ClaimsStep(claimed: seq<OpponentInView>, unit: UnitData): seq<OpponentInView>
  {
    if unit.utype == Warrior && |unit.opponentsInView| > 0 then claimed + [ChosenOpponent(unit, claimed)] else claimed
  }

  /** Reinforcement over scattering: when a first warrior settles on the head
      of its view and a second warrior also sees that opponent, the second
      warrior settles on the very same claim, whatever else it sees first. */
  lemma TargetStability(first: UnitData, second: UnitData)
    requires first.utype == Warrior && |first.opponentsInView| > 0 && |second.opponentsInView| > 0
    requires first.opponentsInView[0].id in OpponentIds(second.opponentsInView)
    ensures ClaimsAfter([first]) == [first.opponentsInView[0]]
    ensures ChosenOpponent(second, ClaimsAfter([first])) == first.opponentsInView[0]
  {
    var a := first.opponentsInView[0];
    assert [first][..0] == [];
    assert OpponentIds([]) == {};
    FirstClaimedInViewSpec(first.opponentsInView, []);
    assert ClaimsAfter([first]) == [a];
    FirstClaimedInViewSpec(second.opponentsInView, [a]);
    var o :| o in second.opponentsInView && o.id == a.id;
    var k :| 0 <= k < |second.opponentsInView| && second.opponentsInView[k] == o;
    assert a.id in OpponentIds([a]);
  }

  /** GetOpponentAngle: the angle between the opponent's facing and the unit's position. */
  function OpponentLookAngle(geo: Geometry, o: OpponentInView, unit: UnitData): real
  {
    geo.angle(OpponentPose(o), unit.x, unit.y)
  }

  /** An armed opponent facing the unit to within 15 degrees. */
  predicate Threatens(geo: Geometry, unit: UnitData, o: OpponentInView)
  {
    o.utype == Warrior && Abs(OpponentLookAngle(geo, o, unit)) < 15.0
  }

  /** Some opponent in view threatens the unit. */
  ghost predicate Threatened(geo: Geometry, unit: UnitData)
  {
    exists i :: 0 <= i < |unit.opponentsInView| && Threatens(geo, unit, unit.opponentsInView[i])
  }

  /** Lines 207-222. The flag is overwritten on every step but the loop stops
      at the first opponent that sets it, so it holds iff some opponent in
      view threatens the unit. */
  method OpponentIsLooking(geo: Geometry, unit: UnitData) returns (opponentIsLooking: bool)
    ensures opponentIsLooking <==> Threatened(geo, unit)
  {
    var view := unit.opponentsInView;
    opponentIsLooking := false;
    var oppos := 0;
    while oppos < |view|
      invariant 0 <= oppos <= |view|
      invariant !opponentIsLooking
      invariant forall j :: 0 <= j < oppos ==> !Threatens(geo, unit, view[j])
    {
      var curOppo := view[oppos];
      opponentIsLooking := curOppo.utype == Warrior && Abs(OpponentLookAngle(geo, curOppo, unit)) < 15.0;
      if opponentIsLooking {
        assert Threatens(geo, unit, view[oppos]);
        break;
      }
      oppos := oppos + 1;
    }
  }
}
