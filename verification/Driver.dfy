/** The bot driver's two inspections: who owns the next decision, and what it is. */
module Driver {
  import opened Common

  datatype Phase = GameOver | Planning | OtherPhase

  datatype Team = Team(color: string, name: string, heroes: seq<string>)

  /** What the driver reads of a game state.  hands holds the heroes that exist; pending the
      heroes with a planning entry; secondOpen those with an open second-card window. */
  datatype State = State(phase: Phase, teams: seq<Team>, hands: map<string, seq<string>>, pending: set<string>,
                         secondOpen: set<string>)

  datatype RequestKind = UpgradePhase | OtherRequest

  /** An input request; players lists the heroes of its context with their open upgrades. */
  datatype Request = Request(kind: RequestKind, player: string, players: seq<(string, int)>, options: seq<string>,
                             canSkip: bool)

  datatype PlanningChoice = Commit(card: string) | Finish | Pass

  /** What a bot's policy would answer now; a selection may be withheld. */
  datatype Agent = Agent(planning: PlanningChoice, selection: Option<string>)

  type Agents = map<string, Agent>

  datatype Inspection =
    | NoDecision
    | PlanningDecision(hero: string, choice: PlanningChoice)
    | InputDecision(hero: string, selection: string)
    | Illegal(hero: string)

  // Who may answer

  function AllHeroes(teams: seq<Team>): seq<string> {
    if teams == [] then [] else AllHeroes(teams[..|teams| - 1]) + teams[|teams| - 1].heroes
  }

  predicate StartsWith(s: string, prefix: string) {
    |prefix| <= |s| && s[..|prefix|] == prefix
  }

  const TEAM: string := "team:"

  predicate TeamAddressed(request: Request) {
    StartsWith(request.player, TEAM)
  }

  function TeamHeroes(teams: seq<Team>, color: string): seq<string> {
    if teams == [] then []
    else
      var last := teams[|teams| - 1];
      TeamHeroes(teams[..|teams| - 1], color) + if last.color == color || last.name == color then last.heroes else []
  }

  function Listed(players: seq<(string, int)>): seq<string> {
    seq(|players|, i requires 0 <= i < |players| => players[i].0)
  }

  function Eligible(state: State, request: Request): seq<string> {
    if request.player != "" && request.player in state.hands then [request.player]
    else if TeamAddressed(request) then TeamHeroes(state.teams, request.player[|TEAM|..])
    else if request.player == "simultaneous" then Listed(request.players)
    else []
  }

  /** The open upgrades of a hero: the last entry of the context decides. */
  function Remaining(players: seq<(string, int)>, hero: string): int {
    if players == [] then 0
    else if players[|players| - 1].0 == hero then players[|players| - 1].1
    else Remaining(players[..|players| - 1], hero)
  }

  function Owing(players: seq<(string, int)>, heroes: seq<string>): seq<string> {
    if heroes == [] then []
    else
      var before, last := Owing(players, heroes[..|heroes| - 1]), heroes[|heroes| - 1];
      if Remaining(players, last) > 0 then before + [last] else before
  }

  /** The heroes that may answer: for upgrades, only those that still owe one. */
  function Responders(state: State, request: Request): seq<string> {
    if request.kind.UpgradePhase? then Owing(request.players, Eligible(state, request)) else Eligible(state, request)
  }

  /** h is the first of the heroes with the property. */
  predicate First(heroes: seq<string>, such: set<string>, h: Option<string>) {
    match h
    case None => forall i :: 0 <= i < |heroes| ==> heroes[i] !in such
    case Some(hero) => exists i :: 0 <= i < |heroes| && heroes[i] == hero && hero in such
                                  && forall j :: 0 <= j < i ==> heroes[j] !in such
  }

  lemma FirstIsUnique(heroes: seq<string>, such: set<string>, a: Option<string>, b: Option<string>)
    requires First(heroes, such, a) && First(heroes, such, b)
    ensures a == b
  {
  }

  predicate AllBots(heroes: seq<string>, agents: Agents) {
    forall i :: 0 <= i < |heroes| ==> heroes[i] in agents
  }

  method FirstIn(heroes: seq<string>, such: set<string>) returns (h: Option<string>)
    ensures First(heroes, such, h)
  {
    for i := 0 to |heroes|
      invariant forall j :: 0 <= j < i ==> heroes[j] !in such
    {
      if heroes[i] in such {
        return Some(heroes[i]);
      }
    }
    h := None;
  }

  /** The first eligible bot; a human among the eligible heroes takes precedence if asked for. */
  method ResolveBotOwner(agents: Agents, eligible: seq<string>, requireAll: bool) returns (h: Option<string>)
    ensures requireAll && !AllBots(eligible, agents) ==> h == None
    ensures !(requireAll && !AllBots(eligible, agents)) ==> First(eligible, agents.Keys, h)
  {
    if requireAll && !AllBots(eligible, agents) {
      return None;
    }
    h := FirstIn(eligible, agents.Keys);
  }

  // Planning

  /** A bot that owes planning work: its second-card window is open or it has no entry yet. */
  predicate OwesPlanning(state: State, agents: Agents, hero: string) {
    hero in agents && hero in state.hands && (hero in state.secondOpen || hero !in state.pending)
  }

  function Planners(state: State, agents: Agents): set<string> {
    set hero | hero in agents.Keys && OwesPlanning(state, agents, hero)
  }

  /** What the engine would reject. */
  predicate LegalPlanning(state: State, hero: string, choice: PlanningChoice)
    requires hero in state.hands
  {
    match choice
    case Commit(card) => card in state.hands[hero]
    case Finish => hero in state.secondOpen
    case Pass => hero !in state.secondOpen && state.hands[hero] == []
  }

  method PlanningOwner(state: State, agents: Agents) returns (h: Option<string>)
    ensures First(AllHeroes(state.teams), Planners(state, agents), h)
  {
    var heroes := AllHeroes(state.teams);
    for i := 0 to |heroes|
      invariant forall j :: 0 <= j < i ==> heroes[j] !in Planners(state, agents)
    {
      var hero := heroes[i];
      if hero !in agents || hero !in state.hands {
        continue;
      }
      if hero in state.secondOpen {
        return Some(hero);
      }
      if hero in state.pending {
        continue;
      }
      return Some(hero);
    }
    h := None;
  }

  /** The first planner's choice, or its rejection. */
  ghost predicate PlansFor(state: State, agents: Agents, d: Inspection) {
    exists h :: Plans(state, agents, h, d)
  }

  ghost predicate Plans(state: State, agents: Agents, h: Option<string>, d: Inspection) {
    First(AllHeroes(state.teams), Planners(state, agents), h) && PlanOf(state, agents, h, d)
  }

  predicate PlanOf(state: State, agents: Agents, h: Option<string>, d: Inspection) {
    match h
    case None => d == NoDecision
    case Some(hero) =>
      hero in agents && hero in state.hands &&
      d == if LegalPlanning(state, hero, agents[hero].planning) then PlanningDecision(hero, agents[hero].planning)
           else Illegal(hero)
  }

  method InspectPlanning(state: State, agents: Agents) returns (d: Inspection)
    ensures PlansFor(state, agents, d)
  {
    var heroes := AllHeroes(state.teams);
    for i := 0 to |heroes|
      invariant forall j :: 0 <= j < i ==> heroes[j] !in Planners(state, agents)
    {
      var hero := heroes[i];
      if hero !in agents || hero !in state.hands {
        continue;
      }
      var choice := agents[hero].planning;
      if hero in state.secondOpen {
        if choice.Pass? || (choice.Commit? && choice.card !in state.hands[hero]) {
          assert Plans(state, agents, Some(hero), Illegal(hero));
          return Illegal(hero);
        }
        assert Plans(state, agents, Some(hero), PlanningDecision(hero, choice));
        return PlanningDecision(hero, choice);
      }
      if hero in state.pending {
        continue;
      }
      if choice.Finish? || (choice.Pass? && state.hands[hero] != [])
          || (choice.Commit? && choice.card !in state.hands[hero]) {
        assert Plans(state, agents, Some(hero), Illegal(hero));
        return Illegal(hero);
      }
      assert Plans(state, agents, Some(hero), PlanningDecision(hero, choice));
      return PlanningDecision(hero, choice);
    }
    assert Plans(state, agents, None, NoDecision);
    d := NoDecision;
  }

  // Input requests

  predicate LegalSelection(request: Request, selection: string) {
    || request.kind.UpgradePhase?
    || (request.options == [] && request.player == "simultaneous")
    || selection in request.options
    || (request.canSkip && selection == "SKIP")
  }

  method InputOwner(state: State, agents: Agents, request: Request) returns (h: Option<string>)
    ensures TeamAddressed(request) && !AllBots(Responders(state, request), agents) ==> h == None
    ensures !(TeamAddressed(request) && !AllBots(Responders(state, request), agents)) ==>
              First(Responders(state, request), agents.Keys, h)
  {
    var eligible := Eligible(state, request);
    if eligible == [] {
      return None;
    }
    if request.kind.UpgradePhase? {
      eligible := Owing(request.players, eligible);
      if eligible == [] {
        return None;
      }
    }
    h := ResolveBotOwner(agents, eligible, TeamAddressed(request));
  }

  /** The owner's answer to a request.  A withheld upgrade is no decision; any other
      withheld or illegal selection is rejected. */
  predicate AnswerOf(agents: Agents, request: Request, h: Option<string>, d: Inspection) {
    match h
    case None => d == NoDecision
    case Some(hero) =>
      hero in agents &&
      d == match agents[hero].selection
           case None => if request.kind.UpgradePhase? then NoDecision else Illegal(hero)
           case Some(selection) =>
             if LegalSelection(request, selection) then InputDecision(hero, selection) else Illegal(hero)
  }

  method InspectInputRequest(state: State, agents: Agents, request: Request) returns (d: Inspection)
    ensures exists h :: Answers(state, agents, request, h, d)
  {
    var eligible := Eligible(state, request);
    if eligible == [] {
      assert Answers(state, agents, request, None, NoDecision);
      return NoDecision;
    }
    if request.kind.UpgradePhase? {
      eligible := Owing(request.players, eligible);
      var owner := FirstIn(eligible, agents.Keys);
      if owner.None? {
        assert Answers(state, agents, request, None, NoDecision);
        return NoDecision;
      }
      var selection := agents[owner.value].selection;
      d := if selection.None? then NoDecision else InputDecision(owner.value, selection.value);
      assert Answers(state, agents, request, owner, d);
      return;
    }
    var resolved := ResolveBotOwner(agents, eligible, TeamAddressed(request));
    if resolved.None? {
      assert Answers(state, agents, request, None, NoDecision);
      return NoDecision;
    }
    var selection := agents[resolved.value].selection;
    if selection.Some? && LegalSelection(request, selection.value) {
      d := InputDecision(resolved.value, selection.value);
    } else {
      d := Illegal(resolved.value);
    }
    assert Answers(state, agents, request, resolved, d);
  }

  // The two inspections

  method InspectNextOwner(state: State, agents: Agents, pending: Option<Request>) returns (h: Option<string>)
    ensures OwnerIs(state, agents, pending, h)
  {
    if state.phase.GameOver? {
      return None;
    }
    if pending.Some? {
      h := InputOwner(state, agents, pending.value);
      return;
    }
    if !state.phase.Planning? {
      return None;
    }
    h := PlanningOwner(state, agents);
  }

  method InspectNextDecision(state: State, agents: Agents, pending: Option<Request>) returns (d: Inspection)
    ensures DecisionIs(state, agents, pending, d)
  {
    if state.phase.GameOver? {
      return NoDecision;
    }
    if pending.Some? {
      d := InspectInputRequest(state, agents, pending.value);
      return;
    }
    if !state.phase.Planning? {
      return NoDecision;
    }
    d := InspectPlanning(state, agents);
  }

  /** A human among the heroes a team request addresses, so bots wait. */
  predicate Deferred(state: State, agents: Agents, request: Request) {
    TeamAddressed(request) && !AllBots(Responders(state, request), agents)
  }

  ghost predicate OwnerIs(state: State, agents: Agents, pending: Option<Request>, h: Option<string>) {
    if state.phase.GameOver? then h == None
    else if pending.Some? then
      if Deferred(state, agents, pending.value) then h == None
      else First(Responders(state, pending.value), agents.Keys, h)
    else if state.phase.Planning? then First(AllHeroes(state.teams), Planners(state, agents), h)
    else h == None
  }

  /** Whose answer it is: for upgrades a human among the heroes does not hold the bots up. */
  predicate Answers(state: State, agents: Agents, request: Request, h: Option<string>, d: Inspection) {
    && AnswerOf(agents, request, h, d)
    && if !request.kind.UpgradePhase? && Deferred(state, agents, request) then h == None
       else First(Responders(state, request), agents.Keys, h)
  }

  ghost predicate DecisionIs(state: State, agents: Agents, pending: Option<Request>, d: Inspection) {
    if state.phase.GameOver? then d == NoDecision
    else if pending.Some? then exists h :: Answers(state, agents, pending.value, h, d)
    else if state.phase.Planning? then PlansFor(state, agents, d)
    else d == NoDecision
  }

  /** The cheap query agrees with the expensive one: without an owner there is no decision,
      and with one the decision, if it is not withheld, is the owner's. */
  predicate Agree(agents: Agents, pending: Option<Request>, h: Option<string>, d: Inspection) {
    match h
    case None => d == NoDecision
    case Some(hero) =>
      match d
      case NoDecision =>
        pending.Some? && pending.value.kind.UpgradePhase? && hero in agents && agents[hero].selection.None?
      case PlanningDecision(other, _) => other == hero
      case InputDecision(other, _) => other == hero
      case Illegal(other) => other == hero
  }

  /** An upgrade request addressed to a team in which a human and a bot both owe an
      upgrade, and the first such bot answers. */
  ghost predicate MixedTeamUpgrade(state: State, agents: Agents, pending: Option<Request>) {
    && !state.phase.GameOver? && pending.Some? && pending.value.kind.UpgradePhase?
    && Deferred(state, agents, pending.value)
    && exists hero :: First(Responders(state, pending.value), agents.Keys, Some(hero)) && AnswersUpgrade(agents, hero)
  }

  predicate AnswersUpgrade(agents: Agents, hero: string) {
    hero in agents && agents[hero].selection.Some?
  }

  /** The two inspections agree except on exactly those requests. */
  lemma InspectionsAgree(state: State, agents: Agents, pending: Option<Request>, h: Option<string>, d: Inspection)
    requires OwnerIs(state, agents, pending, h) && DecisionIs(state, agents, pending, d)
    ensures Agree(agents, pending, h, d) <==> !MixedTeamUpgrade(state, agents, pending)
  {
    if !state.phase.GameOver? && pending.Some? {
      var o :| Answers(state, agents, pending.value, o, d);
      if pending.value.kind.UpgradePhase? && Deferred(state, agents, pending.value) {
        UpgradeOfMixedTeam(state, agents, pending.value, o, d);
      } else if !Deferred(state, agents, pending.value) {
        FirstIsUnique(Responders(state, pending.value), agents.Keys, o, h);
      }
    } else if !state.phase.GameOver? && state.phase.Planning? {
      var o :| Plans(state, agents, o, d);
      FirstIsUnique(AllHeroes(state.teams), Planners(state, agents), o, h);
    }
  }

  lemma UpgradeOfMixedTeam(state: State, agents: Agents, request: Request, o: Option<string>, d: Inspection)
    requires request.kind.UpgradePhase? && Answers(state, agents, request, o, d)
    ensures d == NoDecision <==>
              !exists hero :: First(Responders(state, request), agents.Keys, Some(hero)) && AnswersUpgrade(agents, hero)
  {
    forall hero | First(Responders(state, request), agents.Keys, Some(hero)) ensures o == Some(hero) {
      FirstIsUnique(Responders(state, request), agents.Keys, o, Some(hero));
    }
  }

  /** A team with a human and a bot that both owe an upgrade: no owner, yet a decision. */
  lemma OwnerMissesTeamUpgrade()
    ensures var state := State(OtherPhase, [Team("red", "RED", ["human", "bot"])], map["human" := [], "bot" := []],
                               {}, {});
            var agents := map["bot" := Agent(Pass, Some("upgrade"))];
            var request := Request(UpgradePhase, "team:red", [("human", 1), ("bot", 1)], [], false);
            OwnerIs(state, agents, Some(request), None)
            && DecisionIs(state, agents, Some(request), InputDecision("bot", "upgrade"))
  {
    var red := Team("red", "RED", ["human", "bot"]);
    var state := State(OtherPhase, [red], map["human" := [], "bot" := []], {}, {});
    var agents := map["bot" := Agent(Pass, Some("upgrade"))];
    var players := [("human", 1), ("bot", 1)];
    var request := Request(UpgradePhase, "team:red", players, [], false);
    assert request.player[..|TEAM|] == TEAM && request.player[|TEAM|..] == "red";
    assert |request.player| == 8 && request.player !in state.hands;
    assert TeamHeroes([red], "red") == TeamHeroes([red][..0], "red") + red.heroes == ["human", "bot"];
    assert Eligible(state, request) == ["human", "bot"];
    assert players[..1] == [("human", 1)];
    assert Remaining(players, "bot") == 1 && Remaining(players, "human") == Remaining(players[..1], "human") == 1;
    assert ["human", "bot"][..1] == ["human"] && ["human"][..0] == [];
    assert Owing(players, ["human"]) == ["human"];
    assert Responders(state, request) == ["human", "bot"];
    assert "human" !in agents && Responders(state, request)[0] == "human" && Responders(state, request)[1] == "bot";
    assert Answers(state, agents, request, Some("bot"), InputDecision("bot", "upgrade"));
  }

  // What the inspections mean

  lemma TeamNames(color: string)
    ensures StartsWith("team:" + color, TEAM) && ("team:" + color)[|TEAM|..] == color
    ensures "team:" + color != "simultaneous"
  {
    assert ("team:" + color)[0] != "simultaneous"[0];
  }

  predicate NamedBy(team: Team, color: string) {
    color == team.color || color == team.name
  }

  /** A team's heroes, if it is named so. */
  lemma OneTeam(t: Team, color: string)
    ensures AllHeroes([t]) == t.heroes
    ensures TeamHeroes([t], color) == if NamedBy(t, color) then t.heroes else []
  {
    assert [t][..0] == [];
  }

  /** The heroes of all teams, or of those with a color or name, team after team. */
  lemma {:induction false} HeroesAddUp(a: seq<Team>, b: seq<Team>, color: string)
    ensures AllHeroes([]) == [] && TeamHeroes([], color) == []
    ensures AllHeroes(a + b) == AllHeroes(a) + AllHeroes(b)
    ensures TeamHeroes(a + b, color) == TeamHeroes(a, color) + TeamHeroes(b, color)
  {
    if b == [] {
      assert a + b == a;
    } else {
      var n := |b| - 1;
      HeroesAddUp(a, b[..n], color);
      LastTeam(a, b, color);
      Reassociate(AllHeroes(a), AllHeroes(b[..n]), b[n].heroes);
      Reassociate(TeamHeroes(a, color), TeamHeroes(b[..n], color), if NamedBy(b[n], color) then b[n].heroes else []);
    }
  }

  lemma Reassociate(a: seq<string>, b: seq<string>, c: seq<string>)
    ensures a + (b + c) == a + b + c
  {
  }

  lemma LastTeam(a: seq<Team>, b: seq<Team>, color: string)
    requires b != []
    ensures var n := |b| - 1;
            && AllHeroes(a + b) == AllHeroes(a + b[..n]) + b[n].heroes
            && AllHeroes(b) == AllHeroes(b[..n]) + b[n].heroes
            && TeamHeroes(a + b, color)
               == TeamHeroes(a + b[..n], color) + (if NamedBy(b[n], color) then b[n].heroes else [])
            && TeamHeroes(b, color) == TeamHeroes(b[..n], color) + if NamedBy(b[n], color) then b[n].heroes else []
  {
    assert (a + b)[..|a + b| - 1] == a + b[..|b| - 1];
  }

  /** Whom a request addresses: an existing hero, a team by color or name, or the listed players. */
  lemma EligibleMeans(state: State, request: Request, color: string)
    ensures request.player != "" && request.player in state.hands ==> Eligible(state, request) == [request.player]
    ensures request.player == "team:" + color && request.player !in state.hands ==>
              Eligible(state, request) == TeamHeroes(state.teams, color)
    ensures request.player == "simultaneous" && request.player !in state.hands ==>
              && |Eligible(state, request)| == |request.players|
              && forall i :: 0 <= i < |request.players| ==> Eligible(state, request)[i] == request.players[i].0
    ensures Eligible(state, request) != [] ==>
              || (request.player != "" && request.player in state.hands)
              || request.player[..if |request.player| < 5 then |request.player| else 5] == "team:"
              || request.player == "simultaneous"
  {
    TeamNames(color);
    assert TEAM[0] != "simultaneous"[0];
  }

  ghost predicate OwesAt(players: seq<(string, int)>, hero: string, i: nat) {
    && i < |players| && players[i].0 == hero && players[i].1 > 0
    && forall j :: i < j < |players| ==> players[j].0 != hero
  }

  /** Of the heroes, those whose last entry leaves an upgrade open, in their order. */
  lemma {:induction false} OwingMeans(players: seq<(string, int)>, a: seq<string>, b: seq<string>, hero: string)
    ensures Owing(players, []) == []
    ensures Owing(players, [hero]) == if exists i: nat :: OwesAt(players, hero, i) then [hero] else []
    ensures Owing(players, a + b) == Owing(players, a) + Owing(players, b)
  {
    assert [hero][..0] == [];
    RemainingMeans(players, hero);
    if b == [] {
      assert a + b == a;
    } else {
      var n := |b| - 1;
      OwingMeans(players, a, b[..n], hero);
      assert (a + b)[..|a + b| - 1] == a + b[..n];
    }
  }

  lemma {:induction false} RemainingMeans(players: seq<(string, int)>, hero: string)
    ensures Remaining(players, hero) > 0 <==> exists i: nat :: OwesAt(players, hero, i)
  {
    if players != [] {
      var n := |players| - 1;
      if players[n].0 == hero {
        assert players[n].1 > 0 ==> OwesAt(players, hero, n);
      } else {
        RemainingMeans(players[..n], hero);
        if i: nat :| OwesAt(players[..n], hero, i) {
          assert OwesAt(players, hero, i);
        }
        if i: nat :| OwesAt(players, hero, i) {
          assert OwesAt(players[..n], hero, i);
        }
      }
    }
  }

  /** A bot that may plan: it holds cards, and has not planned or may still add a second card. */
  predicate FreeToPlan(state: State, agents: Agents, hero: string) {
    hero in agents && hero in state.hands && (hero !in state.pending || hero in state.secondOpen)
  }

  predicate PlayableChoice(state: State, hero: string, choice: PlanningChoice) {
    match choice
    case Commit(card) => exists held <- state.hands :: held == hero && card in state.hands[held]
    case Finish => hero in state.secondOpen
    case Pass => hero !in state.secondOpen && exists held <- state.hands :: held == hero && |state.hands[held]| == 0
  }

  predicate PlayableSelection(request: Request, selection: string) {
    || selection in request.options
    || (selection == "SKIP" && request.canSkip)
    || (request.player == "simultaneous" && |request.options| == 0)
  }

  predicate IsUpgrade(pending: Option<Request>) {
    pending.Some? && pending.value.kind == UpgradePhase
  }

  /** Nobody before i in the list is in the set, i is. */
  predicate FirstAt(heroes: seq<string>, such: set<string>, hero: string, i: nat) {
    i < |heroes| && heroes[i] == hero && hero in such && forall j :: 0 <= j < i ==> heroes[j] !in such
  }

  ghost predicate IsFirst(heroes: seq<string>, such: set<string>, hero: string) {
    exists i: nat :: FirstAt(heroes, such, hero, i)
  }

  lemma FirstMeans(heroes: seq<string>, such: set<string>, hero: string)
    ensures First(heroes, such, Some(hero)) <==> IsFirst(heroes, such, hero)
  {
    if First(heroes, such, Some(hero)) {
      var i :| 0 <= i < |heroes| && heroes[i] == hero && hero in such && forall j :: 0 <= j < i ==> heroes[j] !in such;
      assert FirstAt(heroes, such, hero, i);
    }
  }

  /** A planning decision is the choice of the first bot that may plan; the engine would take it. */
  lemma PlanningDecisionMeans(state: State, agents: Agents, pending: Option<Request>, d: Inspection)
    requires DecisionIs(state, agents, pending, d) && d.PlanningDecision?
    ensures state.phase == Planning && pending == None
    ensures FreeToPlan(state, agents, d.hero) && d.choice == agents[d.hero].planning
    ensures PlayableChoice(state, d.hero, d.choice)
    ensures IsFirst(AllHeroes(state.teams), Planners(state, agents), d.hero)
    ensures forall hero :: hero in Planners(state, agents) <==> FreeToPlan(state, agents, hero)
  {
    FirstMeans(AllHeroes(state.teams), Planners(state, agents), d.hero);
  }

  /** An input decision is the answer of a bot that may respond, and one the request admits. */
  lemma InputDecisionMeans(state: State, agents: Agents, pending: Option<Request>, d: Inspection)
    requires DecisionIs(state, agents, pending, d) && d.InputDecision?
    ensures state.phase != GameOver && pending.Some?
    ensures d.hero in agents && agents[d.hero].selection == Some(d.selection)
    ensures IsUpgrade(pending) || PlayableSelection(pending.value, d.selection)
    ensures var heroes := Eligible(state, pending.value);
            IsFirst(if IsUpgrade(pending) then Owing(pending.value.players, heroes) else heroes, agents.Keys, d.hero)
    ensures !IsUpgrade(pending) && pending.value.player[..if |pending.value.player| < 5 then 0 else 5] == "team:" ==>
              forall hero <- Eligible(state, pending.value) :: hero in agents
  {
    var o :| Answers(state, agents, pending.value, o, d);
    assert o == Some(d.hero);
    FirstMeans(Responders(state, pending.value), agents.Keys, d.hero);
  }

  /** A rejection names the bot whose choice or answer would not be taken. */
  lemma IllegalMeans(state: State, agents: Agents, pending: Option<Request>, d: Inspection)
    requires DecisionIs(state, agents, pending, d) && d.Illegal?
    ensures d.hero in agents && !IsUpgrade(pending)
    ensures pending.None? ==>
              FreeToPlan(state, agents, d.hero) && !PlayableChoice(state, d.hero, agents[d.hero].planning)
    ensures pending.Some? ==>
              match agents[d.hero].selection
              case None => true
              case Some(selection) => !PlayableSelection(pending.value, selection)
  {
  }

  /** Without a decision the game is over or waits: for nobody, for a human, or for an upgrade withheld. */
  lemma NoDecisionMeans(state: State, agents: Agents, pending: Option<Request>)
    requires DecisionIs(state, agents, pending, NoDecision) && state.phase != GameOver
    ensures pending.None? && state.phase == Planning ==>
              forall hero <- AllHeroes(state.teams) :: !FreeToPlan(state, agents, hero)
    ensures pending.Some? && !IsUpgrade(pending) ==>
              var heroes := Eligible(state, pending.value);
              || (forall hero <- heroes :: hero !in agents)
              || (StartsWith(pending.value.player, "team:") && exists hero <- heroes :: hero !in agents)
    ensures IsUpgrade(pending) ==>
              forall hero ::
                IsFirst(Owing(pending.value.players, Eligible(state, pending.value)), agents.Keys, hero) ==>
                hero in agents && agents[hero].selection == None
  {
    hide IsFirst;
    if pending.Some? {
      var o :| Answers(state, agents, pending.value, o, NoDecision);
      forall hero | IsFirst(Responders(state, pending.value), agents.Keys, hero)
        ensures IsUpgrade(pending) ==> o == Some(hero)
      {
        FirstMeans(Responders(state, pending.value), agents.Keys, hero);
        if IsUpgrade(pending) {
          FirstIsUnique(Responders(state, pending.value), agents.Keys, o, Some(hero));
        }
      }
    }
  }
}
