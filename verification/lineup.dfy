/** The "Meu Time" page: a squad of players, each a starter ('titular') or a
    substitute ('reserva'), rearranged by dragging a player onto one of the
    two lists; and the squad's point total. */
module Lineup {
  import opened Wrappers
  import opened Seqs

  datatype Status = Titular | Reserva

  datatype Player = Player(id: string, name: string, position: string, points: int, status: Status)

  /** The squad and the id of the player being dragged, if any. */
  datatype LineupState = LineupState(players: seq<Player>, dragged: Option<string>)

  function HasStatus(s: Status): Player -> bool {
    (p: Player) => p.status == s
  }

  /** The starters, in squad order. */
  function Titulares(players: seq<Player>): (r: seq<Player>)
    ensures forall i :: 0 <= i < |r| ==> r[i] in players && r[i].status == Titular
    ensures forall i :: 0 <= i < |players| && players[i].status == Titular ==> players[i] in r
    ensures IsSubsequence(r, players)
  {
    FilterSubsequence(players, HasStatus(Titular));
    Filter(players, HasStatus(Titular))
  }

  /** The substitutes, in squad order. */
  function Reservas(players: seq<Player>): (r: seq<Player>)
    ensures forall i :: 0 <= i < |r| ==> r[i] in players && r[i].status == Reserva
    ensures forall i :: 0 <= i < |players| && players[i].status == Reserva ==> players[i] in r
    ensures IsSubsequence(r, players)
  {
    FilterSubsequence(players, HasStatus(Reserva));
    Filter(players, HasStatus(Reserva))
  }

  /** `totalPoints`: the points of the whole squad. When no player has
      negative points, the total is at least any one player's points. */
  function TotalPoints(players: seq<Player>): (t: int)
    ensures (forall i :: 0 <= i < |players| ==> players[i].points >= 0) ==>
              t >= 0 && forall i :: 0 <= i < |players| ==> players[i].points <= t
    decreases |players|
  {
    if |players| == 0 then 0 else players[0].points + TotalPoints(players[1..])
  }

  /** `handleDragStart`. */
  function HandleDragStart(st: LineupState, playerId: string): (r: LineupState)
    ensures r.players == st.players && r.dragged == Some(playerId)
  {
    st.(dragged := Some(playerId))
  }

  /** Whether the dragged id is falsy in JavaScript: none, or empty. */
  predicate NothingDragged(st: LineupState) {
    st.dragged.None? || st.dragged.value == ""
  }

  /** `handleDrop`: with nothing dragged the page is unchanged; otherwise the
      dragged player gets the target status, everyone else stays, and the
      drag is over. */
  function HandleDrop(st: LineupState, target: Status): (r: LineupState)
    ensures NothingDragged(st) ==> r == st
    ensures !NothingDragged(st) ==>
              && r.dragged.None?
              && |r.players| == |st.players|
              && forall i :: 0 <= i < |st.players| ==>
                   if st.players[i].id == st.dragged.value then r.players[i] == st.players[i].(status := target)
                   else r.players[i] == st.players[i]
  {
    if NothingDragged(st) then st
    else
      var id := st.dragged.value;
      var players := seq(|st.players|, i requires 0 <= i < |st.players| =>
        if st.players[i].id == id then st.players[i].(status := target) else st.players[i]);
      LineupState(players, None)
  }

  /** The two lists split the squad: every player is in exactly one. */
  lemma StatusPartition(players: seq<Player>)
    ensures multiset(Titulares(players)) + multiset(Reservas(players)) == multiset(players)
    ensures |Titulares(players)| + |Reservas(players)| == |players|
  {
    FilterSame(players, HasStatus(Reserva), Not(HasStatus(Titular)));
    FilterSplit(players, HasStatus(Titular));
  }

  /** Moving players between the lists never changes the squad's total. */
  lemma {:induction false} SamePointsSameTotal(a: seq<Player>, b: seq<Player>)
    requires |a| == |b|
    requires forall i :: 0 <= i < |a| ==> a[i].points == b[i].points
    ensures TotalPoints(a) == TotalPoints(b)
    decreases |a|
  {
    if |a| > 0 {
      SamePointsSameTotal(a[1..], b[1..]);
    }
  }

  lemma DropKeepsTotal(st: LineupState, target: Status)
    ensures TotalPoints(HandleDrop(st, target).players) == TotalPoints(st.players)
  {
    SamePointsSameTotal(HandleDrop(st, target).players, st.players);
  }

  /** The total is the starters' points plus the substitutes'. */
  lemma {:induction false} TotalSplits(players: seq<Player>)
    ensures TotalPoints(players) == TotalPoints(Titulares(players)) + TotalPoints(Reservas(players))
    decreases |players|
  {
    if |players| > 0 {
      TotalSplits(players[1..]);
      var p := players[0];
      if p.status == Titular {
        assert Titulares(players) == [p] + Titulares(players[1..]);
        assert Reservas(players) == Reservas(players[1..]);
        TotalConcat([p], Titulares(players[1..]));
      } else {
        assert Reservas(players) == [p] + Reservas(players[1..]);
        assert Titulares(players) == Titulares(players[1..]);
        TotalConcat([p], Reservas(players[1..]));
      }
    }
  }

  lemma {:induction false} TotalConcat(a: seq<Player>, b: seq<Player>)
    ensures TotalPoints(a + b) == TotalPoints(a) + TotalPoints(b)
    decreases |a|
  {
    if |a| > 0 {
      TotalConcat(a[1..], b);
      assert (a + b)[1..] == a[1..] + b;
    } else {
      assert a + b == b;
    }
  }

  function IdWithStatus(id: string, s: Status): Player -> bool {
    (p: Player) => p.id == id && p.status == s
  }

  /** The "/5" in the labels is not a limit: dropping a substitute onto the
      starters always adds it, however many starters there are already. */
  lemma {:induction false} DropOnStartersAddsStarter(players: seq<Player>, id: string)
    requires id != ""
    ensures var r := HandleDrop(LineupState(players, Some(id)), Titular).players;
            |Titulares(r)| == |Titulares(players)| + Count(players, IdWithStatus(id, Reserva))
    decreases |players|
  {
    if |players| > 0 {
      DropOnStartersAddsStarter(players[1..], id);
      var r := HandleDrop(LineupState(players, Some(id)), Titular).players;
      assert r[1..] == HandleDrop(LineupState(players[1..], Some(id)), Titular).players;
    }
  }
}
