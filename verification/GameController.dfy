/** Filling the teams of a game with bots (Game/GameController.refl.cpp), for any number of player
    slots and teams. */
module GameController {
  import opened Options

  datatype Player = Player(name: string, team: nat, bot: bool, ready: bool)

  /** One entry for each player slot. */
  type Slots = seq<Option<Player>>

  function TeamCount(players: Slots, team: nat): nat {
    if players == [] then 0
    else
      var last := players[|players| - 1];
      TeamCount(players[..|players| - 1], team) + if last.Some? && last.value.team == team then 1 else 0
  }

  function FreeSlots(players: Slots): nat {
    if players == [] then 0
    else FreeSlots(players[..|players| - 1]) + if players[|players| - 1].None? then 1 else 0
  }

  /** How many of the first n teams have nobody. */
  function EmptyTeams(players: Slots, n: nat): nat {
    if n == 0 then 0 else EmptyTeams(players, n - 1) + if TeamCount(players, n - 1) == 0 then 1 else 0
  }

  ghost function SlotsOf(players: Slots, team: nat): set<nat> {
    set k: nat | k < |players| && players[k].Some? && players[k].value.team == team
  }

  ghost function NoPlayerIn(players: Slots): set<nat> {
    set k: nat | k < |players| && players[k].None?
  }

  /** The teams below n in which nobody plays. */
  ghost function TeamsWithout(players: Slots, n: nat): set<nat> {
    set t: nat | t < n && SlotsOf(players, t) == {}
  }

  lemma {:induction false} PlayersCounted(players: Slots, team: nat)
    ensures TeamCount(players, team) == |SlotsOf(players, team)| && FreeSlots(players) == |NoPlayerIn(players)|
  {
    if players != [] {
      PlayersCounted(players[..|players| - 1], team);
      OneMoreSlot(players, team);
      hide SlotsOf, NoPlayerIn;
    }
  }

  lemma OneMoreSlot(players: Slots, team: nat)
    requires players != []
    ensures var n := |players| - 1;
      && |SlotsOf(players, team)| == |SlotsOf(players[..n], team)| + (if players[n].Some? && players[n].value.team == team then 1 else 0)
      && |NoPlayerIn(players)| == |NoPlayerIn(players[..n])| + if players[n].None? then 1 else 0
  {
    var n: nat := |players| - 1;
    var slots, none := SlotsOf(players[..n], team), NoPlayerIn(players[..n]);
    forall k: nat ensures k in SlotsOf(players, team) <==> k in slots || (k == n && players[n].Some? && players[n].value.team == team)
                  ensures k in NoPlayerIn(players) <==> k in none || (k == n && players[n].None?)
    {
      assert k < n ==> players[..n][k] == players[k];
    }
    assert n !in slots && n !in none;
    hide SlotsOf, NoPlayerIn;
    WithOne(slots, SlotsOf(players, team), n, players[n].Some? && players[n].value.team == team);
    WithOne(none, NoPlayerIn(players), n, players[n].None?);
  }

  lemma WithOne(before: set<nat>, after: set<nat>, n: nat, more: bool)
    requires n !in before && forall k: nat :: k in after <==> k in before || (k == n && more)
    ensures |after| == |before| + if more then 1 else 0
  {
    assert after == before + if more then {n} else {};
  }

  /** The counts are what they say: players of a team, slots without one, teams without any. */
  lemma {:induction false} TeamsCounted(players: Slots, n: nat)
    ensures EmptyTeams(players, n) == |TeamsWithout(players, n)|
  {
    if n > 0 {
      TeamsCounted(players, n - 1);
      PlayersCounted(players, n - 1);
      assert TeamsWithout(players, n) == TeamsWithout(players, n - 1) + if TeamCount(players, n - 1) == 0 then {n - 1} else {};
    }
  }

  ghost predicate TeamsInRange(players: Slots, maxTeams: nat) {
    forall i :: 0 <= i < |players| && players[i].Some? ==> players[i].value.team < maxTeams
  }

  // One more player

  lemma {:induction false} JoinedCount(players: Slots, k: nat, p: Player, team: nat)
    requires k < |players| && players[k].None?
    ensures TeamCount(players[k := Some(p)], team) == TeamCount(players, team) + if p.team == team then 1 else 0
  {
    var n := |players| - 1;
    if k == n {
      assert players[k := Some(p)][..n] == players[..n];
    } else {
      JoinedCount(players[..n], k, p, team);
      assert players[k := Some(p)][..n] == players[..n][k := Some(p)];
    }
  }

  lemma {:induction false} JoinedFree(players: Slots, k: nat, p: Player)
    requires k < |players| && players[k].None?
    ensures FreeSlots(players) > 0 && FreeSlots(players[k := Some(p)]) == FreeSlots(players) - 1
  {
    var n := |players| - 1;
    if k == n {
      assert players[k := Some(p)][..n] == players[..n];
    } else {
      JoinedFree(players[..n], k, p);
      assert players[k := Some(p)][..n] == players[..n][k := Some(p)];
    }
  }

  lemma {:induction false} JoinedEmpty(players: Slots, k: nat, p: Player, n: nat)
    requires k < |players| && players[k].None?
    ensures EmptyTeams(players[k := Some(p)], n) ==
      EmptyTeams(players, n) - if p.team < n && TeamCount(players, p.team) == 0 then 1 else 0
  {
    if n > 0 {
      JoinedEmpty(players, k, p, n - 1);
      JoinedCount(players, k, p, n - 1);
    }
  }

  lemma {:induction false} NoFreeSlot(players: Slots)
    ensures FreeSlots(players) == 0 <==> forall i :: 0 <= i < |players| ==> players[i].Some?
  {
    if players != [] {
      NoFreeSlot(players[..|players| - 1]);
      assert forall i :: 0 <= i < |players| - 1 ==> players[..|players| - 1][i] == players[i];
    }
  }

  lemma {:induction false} NoTeamEmpty(players: Slots, n: nat)
    ensures EmptyTeams(players, n) == 0 <==> forall t :: 0 <= t < n ==> TeamCount(players, t) > 0
  {
    if n > 0 {
      NoTeamEmpty(players, n - 1);
      assert EmptyTeams(players, n) == 0 <==> EmptyTeams(players, n - 1) == 0 && TeamCount(players, n - 1) > 0;
      if EmptyTeams(players, n) != 0 && TeamCount(players, n - 1) > 0 {
        var t :| 0 <= t < n - 1 && TeamCount(players, t) == 0;
      }
    }
  }

  lemma {:induction false} CountBound(players: Slots, team: nat)
    ensures TeamCount(players, team) <= |players|
  {
    if players != [] {
      CountBound(players[..|players| - 1], team);
    }
  }

  // Choosing a team

  /** Among the first n teams, those with a given count, in order. */
  function WithCount(counts: seq<nat>, n: nat, c: int): seq<nat>
    requires n <= |counts|
  {
    if n == 0 then [] else WithCount(counts, n - 1, c) + if counts[n - 1] == c then [n - 1] else []
  }

  lemma {:induction false} WithCountNone(counts: seq<nat>, n: nat, c: int)
    requires n <= |counts| && forall t :: 0 <= t < n ==> counts[t] != c
    ensures WithCount(counts, n, c) == []
  {
    if n > 0 {
      WithCountNone(counts, n - 1, c);
    }
  }

  lemma {:induction false} WithCountIs(counts: seq<nat>, n: nat, c: int)
    requires n <= |counts|
    ensures forall t: nat :: t in WithCount(counts, n, c) <==> t < n && counts[t] == c
  {
    if n > 0 {
      WithCountIs(counts, n - 1, c);
    }
  }

  /** One of the teams with the fewest players, picked by the random number. */
  ghost predicate LeastLoaded(players: Slots, maxTeams: nat, random: nat, team: nat) {
    exists counts: seq<nat>, c: nat ::
      && |counts| == maxTeams && (forall t :: 0 <= t < maxTeams ==> counts[t] == TeamCount(players, t) >= c)
      && var best := WithCount(counts, maxTeams, c); best != [] && team == best[random % |best|]
  }

  /** Every team that is least loaded is picked by some random number. */
  lemma LeastLoadedIsPicked(players: Slots, maxTeams: nat, team: nat) returns (random: nat)
    requires team < maxTeams && forall t :: 0 <= t < maxTeams ==> TeamCount(players, team) <= TeamCount(players, t)
    ensures LeastLoaded(players, maxTeams, random, team)
  {
    var counts: seq<nat> := seq(maxTeams, t requires 0 <= t < maxTeams => TeamCount(players, t));
    var c := TeamCount(players, team);
    random := WithCountHas(counts, maxTeams, c, team);
    hide TeamCount, WithCount;
    PicksItself(random, |WithCount(counts, maxTeams, c)|);
  }

  lemma PicksItself(k: nat, n: nat)
    requires k < n
    ensures k % n == k
  {
  }

  lemma {:induction false} WithCountHas(counts: seq<nat>, n: nat, c: int, team: nat) returns (k: nat)
    requires team < n <= |counts| && counts[team] == c
    ensures k < |WithCount(counts, n, c)| && WithCount(counts, n, c)[k] == team
  {
    if team < n - 1 {
      k := WithCountHas(counts, n - 1, c, team);
    } else {
      k := |WithCount(counts, n - 1, c)|;
    }
  }

  lemma LeastLoadedIsLeast(players: Slots, maxTeams: nat, random: nat, team: nat)
    requires LeastLoaded(players, maxTeams, random, team)
    ensures team < maxTeams && forall t :: 0 <= t < maxTeams ==> TeamCount(players, team) <= TeamCount(players, t)
  {
    var counts: seq<nat>, c: nat :|
      && |counts| == maxTeams && (forall t :: 0 <= t < maxTeams ==> counts[t] == TeamCount(players, t) >= c)
      && var best := WithCount(counts, maxTeams, c); best != [] && team == best[random % |best|];
    WithCountIs(counts, maxTeams, c);
    assert team in WithCount(counts, maxTeams, c);
  }

  class GameController {
    const maxTeams: nat
    var players: Slots

    constructor (maxPlayers: nat, maxTeams: nat)
      ensures this.maxTeams == maxTeams && |players| == maxPlayers && forall i :: 0 <= i < maxPlayers ==> players[i] == None
    {
      this.maxTeams := maxTeams;
      players := seq(maxPlayers, _ => None);
    }

    method GetTeamCounts() returns (teams: seq<nat>)
      requires TeamsInRange(players, maxTeams)
      ensures |teams| == maxTeams && forall t :: 0 <= t < maxTeams ==> teams[t] == TeamCount(players, t)
    {
      teams := seq(maxTeams, _ => 0);
      var i := 0;
      while i < |players|
        invariant i <= |players| && |teams| == maxTeams
        invariant forall t :: 0 <= t < maxTeams ==> teams[t] == TeamCount(players[..i], t)
      {
        assert players[..i + 1][..i] == players[..i];
        if players[i].Some? {
          teams := teams[players[i].value.team := teams[players[i].value.team] + 1];
        }
        i := i + 1;
      }
      assert players[..i] == players;
    }

    /** The counts stay below the bound the search starts from. */
    method GetRandomTeam(random: nat) returns (team: nat)
      requires TeamsInRange(players, maxTeams) && maxTeams > 0 && |players| < 100000
      ensures LeastLoaded(players, maxTeams, random, team)
    {
      var counts := GetTeamCounts();
      var best: seq<nat> := [];
      var bestCount := 100000;
      var i := 0;
      while i < |counts|
        invariant i <= |counts| && best == WithCount(counts, i, bestCount)
        invariant forall t :: 0 <= t < i ==> bestCount <= counts[t]
        invariant if i == 0 then bestCount == 100000 else best != [] && 0 <= bestCount < 100000
      {
        CountBound(players, i);
        if counts[i] < bestCount {
          WithCountNone(counts, i, counts[i]);
          best := [];
          best := best + [i];
          bestCount := counts[i];
        } else if counts[i] == bestCount {
          best := best + [i];
        }
        i := i + 1;
      }
      team := best[random % |best|];
    }

    method DoAllTeamsHavePlayers() returns (all: bool)
      ensures all <==> EmptyTeams(players, maxTeams) == 0
    {
      var team := 0;
      while team < maxTeams
        invariant team <= maxTeams && EmptyTeams(players, team) == 0
      {
        var found, i := false, 0;
        while i < |players| && !found
          invariant i <= |players| && (found <==> TeamCount(players[..i], team) > 0)
        {
          assert players[..i + 1][..i] == players[..i];
          found := players[i].Some? && players[i].value.team == team;
          i := i + 1;
        }
        CountGrows(players, i, team);
        assert i == |players| ==> players[..i] == players;
        if !found {
          NoTeamEmpty(players, maxTeams);
          return false;
        }
        team := team + 1;
      }
      return true;
    }

    /** A bot takes the first free slot and joins a team with the fewest players; without a free
        slot nothing happens. */
    method AddAIPlayer(random: nat) returns (index: int)
      requires TeamsInRange(players, maxTeams) && maxTeams > 0 && |players| < 100000
      modifies this
      ensures TeamsInRange(players, maxTeams)
      ensures FreeSlots(old(players)) == 0 ==> index == -1 && players == old(players)
      ensures FreeSlots(old(players)) > 0 ==> 0 <= index < |players| && BotAdded(old(players), players, maxTeams, random, index)
    {
      NoFreeSlot(players);
      index := 0;
      while index < |players|
        invariant 0 <= index <= |players| && players == old(players)
        invariant forall i :: 0 <= i < index ==> players[i].Some?
      {
        if players[index].None? {
          var team := GetRandomTeam(random);
          LeastLoadedIsLeast(players, maxTeams, random, team);
          var bot := Player("AI", team, false, false);
          players := players[index := Some(bot)];
          players := players[index := Some(bot.(bot := true))];
          players := players[index := Some(bot.(bot := true, ready := true))];
          assert players == old(players)[index := Some(Player("AI", team, true, true))];
          return;
        }
        index := index + 1;
      }
      return -1;
    }

    /** One bot joins each team that has nobody, and no other; players who were there stay. This
        needs as many free slots as empty teams. */
    method FillWithBots(random: nat -> nat)
      requires TeamsInRange(players, maxTeams) && |players| < 100000
      requires FreeSlots(players) >= EmptyTeams(players, maxTeams)
      modifies this
      ensures EmptyTeams(players, maxTeams) == 0 && Helped(old(players), players, maxTeams)
      ensures forall t :: 0 <= t < maxTeams ==>
        TeamCount(players, t) == if TeamCount(old(players), t) == 0 then 1 else TeamCount(old(players), t)
    {
      hide EmptyTeams, TeamCount, FreeSlots, Helped;
      HelpedSame(players, maxTeams);
      var draws := 0;
      var full := DoAllTeamsHavePlayers();
      while !full
        invariant full <==> EmptyTeams(players, maxTeams) == 0
        invariant TeamsInRange(players, maxTeams) && Helped(old(players), players, maxTeams)
        decreases EmptyTeams(players, maxTeams)
      {
        ghost var before := players;
        HelpedFree(old(players), players, maxTeams);
        var index := AddAIPlayer(random(draws));
        BotHelps(before, players, maxTeams, random(draws), index);
        HelpedOn(old(players), before, players, maxTeams);
        draws := draws + 1;
        full := DoAllTeamsHavePlayers();
      }
      HelpedAll(old(players), players, maxTeams);
    }
  }

  lemma {:induction false} CountGrows(players: Slots, i: nat, team: nat)
    requires i <= |players|
    ensures TeamCount(players[..i], team) <= TeamCount(players, team)
    decreases |players|
  {
    if i == |players| {
      assert players[..i] == players;
    } else {
      var n := |players| - 1;
      CountGrows(players[..n], i, team);
      assert players[..n][..i] == players[..i];
    }
  }

  /** A bot of a least loaded team took the first free slot. */
  ghost predicate BotAdded(players: Slots, players': Slots, maxTeams: nat, random: nat, index: int) {
    && 0 <= index < |players| && players[index].None? && (forall i :: 0 <= i < index ==> players[i].Some?)
    && exists team :: LeastLoaded(players, maxTeams, random, team) && players' == players[index := Some(Player("AI", team, true, true))]
  }

  /** Nobody was overwritten and whoever is new is a bot. */
  ghost predicate Filled(players: Slots, players': Slots) {
    |players'| == |players| &&
    forall i :: 0 <= i < |players| ==> players'[i] == players[i] || (players[i].None? && players'[i].Some? && players'[i].value.bot)
  }

  ghost predicate OneBot(players: Slots, players': Slots, t: nat) {
    TeamCount(players', t) == TeamCount(players, t) || (TeamCount(players, t) == 0 && TeamCount(players', t) == 1)
  }

  /** What bots did so far: one for each team no longer empty, each in a slot that was free. */
  ghost predicate Helped(players: Slots, players': Slots, maxTeams: nat) {
    && Filled(players, players')
    && FreeSlots(players') - EmptyTeams(players', maxTeams) == FreeSlots(players) - EmptyTeams(players, maxTeams)
    && forall t :: 0 <= t < maxTeams ==> OneBot(players, players', t)
  }

  lemma HelpedSame(players: Slots, maxTeams: nat)
    ensures Helped(players, players, maxTeams)
  {
  }

  lemma HelpedOn(a: Slots, b: Slots, c: Slots, maxTeams: nat)
    requires Helped(a, b, maxTeams) && Helped(b, c, maxTeams)
    ensures Helped(a, c, maxTeams)
  {
    forall t | 0 <= t < maxTeams ensures OneBot(a, c, t) {
      assert OneBot(a, b, t) && OneBot(b, c, t);
    }
  }

  lemma HelpedAll(a: Slots, b: Slots, maxTeams: nat)
    requires Helped(a, b, maxTeams) && EmptyTeams(b, maxTeams) == 0
    ensures forall t :: 0 <= t < maxTeams ==> TeamCount(b, t) == if TeamCount(a, t) == 0 then 1 else TeamCount(a, t)
  {
    NoTeamEmpty(b, maxTeams);
    forall t | 0 <= t < maxTeams ensures OneBot(a, b, t) && TeamCount(b, t) > 0 {
    }
  }

  lemma HelpedFree(a: Slots, b: Slots, maxTeams: nat)
    requires Helped(a, b, maxTeams) && FreeSlots(a) >= EmptyTeams(a, maxTeams) && EmptyTeams(b, maxTeams) > 0
    ensures |b| == |a| && FreeSlots(b) > 0 && maxTeams > 0
  {
  }

  /** While some team is empty a bot goes to an empty team. */
  lemma BotHelps(players: Slots, players': Slots, maxTeams: nat, random: nat, index: int)
    requires BotAdded(players, players', maxTeams, random, index) && EmptyTeams(players, maxTeams) > 0
    ensures EmptyTeams(players', maxTeams) == EmptyTeams(players, maxTeams) - 1
    ensures FreeSlots(players') == FreeSlots(players) - 1 && Helped(players, players', maxTeams)
  {
    var team :| LeastLoaded(players, maxTeams, random, team) && players' == players[index := Some(Player("AI", team, true, true))];
    var bot := Player("AI", team, true, true);
    LeastLoadedIsLeast(players, maxTeams, random, team);
    NoTeamEmpty(players, maxTeams);
    JoinedEmpty(players, index, bot, maxTeams);
    JoinedFree(players, index, bot);
    hide LeastLoaded, EmptyTeams, FreeSlots;
    forall t | 0 <= t < maxTeams ensures OneBot(players, players', t) {
      JoinedCount(players, index, bot, t);
    }
  }

  // With too few free slots

  /** One time round the loop; without a free slot it changes nothing. */
  ghost predicate Round(players: Slots, maxTeams: nat, random: nat, players': Slots) {
    && EmptyTeams(players, maxTeams) > 0
    && if FreeSlots(players) == 0 then players' == players else exists index :: BotAdded(players, players', maxTeams, random, index)
  }

  ghost predicate Rounds(states: seq<Slots>, maxTeams: nat, random: nat -> nat) {
    forall i, j :: 0 <= i < |states| && j == i + 1 < |states| ==> Round(states[i], maxTeams, random(i), states[j])
  }

  /** With fewer free slots than empty teams no number of rounds gets every team a player. */
  lemma {:induction false} TooFewSlots(states: seq<Slots>, maxTeams: nat, random: nat -> nat, n: nat)
    requires n < |states| && Rounds(states, maxTeams, random)
    requires FreeSlots(states[0]) < EmptyTeams(states[0], maxTeams)
    ensures EmptyTeams(states[n], maxTeams) - FreeSlots(states[n]) == EmptyTeams(states[0], maxTeams) - FreeSlots(states[0])
    ensures EmptyTeams(states[n], maxTeams) > 0
  {
    if n > 0 {
      TooFewSlots(states, maxTeams, random, n - 1);
      assert Round(states[n - 1], maxTeams, random(n - 1), states[n]);
      if FreeSlots(states[n - 1]) > 0 {
        var index :| BotAdded(states[n - 1], states[n], maxTeams, random(n - 1), index);
        BotHelps(states[n - 1], states[n], maxTeams, random(n - 1), index);
      }
    }
  }
}
