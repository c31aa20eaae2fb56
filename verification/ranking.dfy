/** The ranking table: users ordered by total points, numbered from 1, each
    with a medal or "#n" badge; and the scoring rule the table advertises. */
module Ranking {
  import opened Wrappers
  import opened Seqs
  import opened Text

  /** One user as the table receives it. */
  datatype Entry = Entry(id: string, nickname: string, pointsTotal: int)

  /** A user with the position the table assigns. */
  datatype Ranked = Ranked(entry: Entry, position: int)

  predicate NonIncreasing(s: seq<Entry>) {
    forall i, j :: 0 <= i < j < |s| ==> s[i].pointsTotal >= s[j].pointsTotal
  }

  /** Puts `x` before the first entry with at most its points, so that `x`
      stays ahead of the entries it preceded with the same points. */
  function Insert(x: Entry, s: seq<Entry>): (r: seq<Entry>)
    requires NonIncreasing(s)
    ensures NonIncreasing(r)
    ensures multiset(r) == multiset(s) + multiset{x}
    ensures |r| == |s| + 1
    ensures forall k :: 0 <= k < |r| ==> r[k] == x || r[k] in s
    decreases |s|
  {
    if |s| == 0 || x.pointsTotal >= s[0].pointsTotal then [x] + s
    else
      var tail := s[1..];
      assert NonIncreasing(tail) by {
        forall i, j | 0 <= i < j < |tail| ensures tail[i].pointsTotal >= tail[j].pointsTotal {
          assert tail[i] == s[i + 1] && tail[j] == s[j + 1];
        }
      }
      var rest := Insert(x, tail);
      assert s == [s[0]] + tail;
      assert forall k :: 0 <= k < |rest| ==> rest[k].pointsTotal <= s[0].pointsTotal;
      [s[0]] + rest
  }

  /** `users.sort((a, b) => b.pointsTotal - a.pointsTotal)`: a stable sort by
      points, highest first. */
  function SortByPoints(s: seq<Entry>): (r: seq<Entry>)
    ensures NonIncreasing(r)
    ensures multiset(r) == multiset(s)
    ensures |r| == |s|
    decreases |s|
  {
    if |s| == 0 then []
    else
      assert s == [s[0]] + s[1..];
      Insert(s[0], SortByPoints(s[1..]))
  }

  /** The entries with exactly `p` points, in their order in `s`. */
  function Tied(s: seq<Entry>, p: int): seq<Entry>
    decreases |s|
  {
    if |s| == 0 then []
    else (if s[0].pointsTotal == p then [s[0]] else []) + Tied(s[1..], p)
  }

  /** Inserting `x` adds it in front of the entries with its points and
      leaves the entries with any other points where they were. */
  lemma {:induction false} InsertKeepsTies(x: Entry, s: seq<Entry>, p: int)
    requires NonIncreasing(s)
    ensures Tied(Insert(x, s), p) == (if x.pointsTotal == p then [x] else []) + Tied(s, p)
    decreases |s|
  {
    if |s| == 0 || x.pointsTotal >= s[0].pointsTotal {
      TiedCons(x, s, p);
    } else {
      var tail := s[1..];
      assert NonIncreasing(tail) by {
        forall i, j | 0 <= i < j < |tail| ensures tail[i].pointsTotal >= tail[j].pointsTotal {
          assert tail[i] == s[i + 1] && tail[j] == s[j + 1];
        }
      }
      var rest := Insert(x, tail);
      assert Insert(x, s) == [s[0]] + rest;
      var ties := Tied(tail, p);
      InsertKeepsTies(x, tail, p);
      TiedCons(s[0], rest, p);
      assert s == [s[0]] + tail;
      TiedCons(s[0], tail, p);
      if x.pointsTotal == p {
        // `x` has more points than `s[0]`, so `s[0]` is not tied with it.
        assert Tied(Insert(x, s), p) == Tied(rest, p) == [x] + ties;
        assert Tied(s, p) == ties;
      } else if s[0].pointsTotal == p {
        assert Tied(Insert(x, s), p) == [s[0]] + Tied(rest, p);
        assert Tied(rest, p) == ties;
      } else {
        assert Tied(Insert(x, s), p) == Tied(rest, p) == ties;
      }
    }
  }

  lemma TiedCons(h: Entry, s: seq<Entry>, p: int)
    ensures Tied([h] + s, p) == (if h.pointsTotal == p then [h] else []) + Tied(s, p)
  {
    assert ([h] + s)[1..] == s;
  }

  /** The sort is stable: the users with any given number of points appear
      in the same relative order as in the input. */
  lemma {:induction false} SortIsStable(s: seq<Entry>, p: int)
    ensures Tied(SortByPoints(s), p) == Tied(s, p)
    decreases |s|
  {
    if |s| > 0 {
      SortIsStable(s[1..], p);
      InsertKeepsTies(s[0], SortByPoints(s[1..]), p);
    }
  }

  /** `sortedUsers`: the sorted users numbered 1, 2, ... in order. */
  function Rank(users: seq<Entry>): (r: seq<Ranked>)
    ensures |r| == |users|
    ensures forall i :: 0 <= i < |r| ==> r[i].position == i + 1
    ensures forall i, j :: 0 <= i < j < |r| ==> r[i].entry.pointsTotal >= r[j].entry.pointsTotal
    ensures multiset(Entries(r)) == multiset(users)
  {
    var sorted := SortByPoints(users);
    var r := seq(|sorted|, i requires 0 <= i < |sorted| => Ranked(sorted[i], i + 1));
    assert Entries(r) == sorted;
    r
  }

  function Entries(r: seq<Ranked>): seq<Entry> {
    seq(|r|, i requires 0 <= i < |r| => r[i].entry)
  }

  datatype Variant = Default | Secondary | Outline

  datatype Badge = Badge(variant: Variant, icon: string)

  /** `getPositionBadge`: medals for the podium, "#n" below it. */
  function PositionBadge(position: int): (b: Badge)
    ensures position == 1 <==> b.variant == Default
    ensures position == 2 || position == 3 <==> b.variant == Secondary
    ensures position == 1 ==> b.icon == "🥇"
    ensures position == 2 ==> b.icon == "🥈"
    ensures position == 3 ==> b.icon == "🥉"
    ensures position !in {1, 2, 3} ==> b.variant == Outline && b.icon == "#" + IntToString(position)
  {
    if position == 1 then Badge(Default, "🥇")
    else if position == 2 then Badge(Secondary, "🥈")
    else if position == 3 then Badge(Secondary, "🥉")
    else Badge(Outline, "#" + IntToString(position))
  }

  /** Reads a position back from a badge's icon. */
  function BadgePosition(icon: string): Option<int> {
    if icon == "🥇" then Some(1)
    else if icon == "🥈" then Some(2)
    else if icon == "🥉" then Some(3)
    else if |icon| > 0 && icon[0] == '#' then ParseInt(icon[1..])
    else None
  }

  /** Every badge names its position: the icon alone recovers it, so no two
      positions share a badge. */
  lemma BadgeIdentifiesPosition(position: int)
    ensures BadgePosition(PositionBadge(position).icon) == Some(position)
  {
    if position !in {1, 2, 3} {
      var digits := IntToString(position);
      var icon := "#" + digits;
      assert icon[1..] == digits;
      assert icon != "🥇" && icon != "🥈" && icon != "🥉" by {
        assert icon[0] == '#';
      }
      ParseIntToString(position);
    }
  }

  /** The outcome of a match, or of a guess. */
  datatype Outcome = HomeWin | Draw | AwayWin

  function OutcomeOf(a: int, b: int): Outcome {
    if a > b then HomeWin else if a == b then Draw else AwayWin
  }

  /** The points the table advertises for a bet once its game has a result:
      10 for the exact score, 5 for the right winner or a draw otherwise.
      Every other bet is taken to score 0. */
  function AdvertisedPoints(betA: int, betB: int, scoreA: int, scoreB: int): (r: nat)
    ensures r == 10 <==> betA == scoreA && betB == scoreB
    ensures r == 5 <==> (betA != scoreA || betB != scoreB) && OutcomeOf(betA, betB) == OutcomeOf(scoreA, scoreB)
    ensures r == 0 <==> OutcomeOf(betA, betB) != OutcomeOf(scoreA, scoreB)
  {
    if betA == scoreA && betB == scoreB then 10
    else if OutcomeOf(betA, betB) == OutcomeOf(scoreA, scoreB) then 5
    else 0
  }

  /** The exact score earns the most any bet can, and swapping the two teams
      in both the guess and the score changes nothing. */
  lemma ExactScoreIsBest(betA: int, betB: int, scoreA: int, scoreB: int)
    ensures AdvertisedPoints(betA, betB, scoreA, scoreB) <= AdvertisedPoints(scoreA, scoreB, scoreA, scoreB)
    ensures AdvertisedPoints(betA, betB, scoreA, scoreB) == AdvertisedPoints(betB, betA, scoreB, scoreA)
  {
  }

  /** The rule on concrete games: a 2x1 guess scores 10 on 2x1, 5 on 3x1,
      0 on 1x1; a 0x0 guess scores 5 on 2x2. */
  lemma AdvertisedPointsExamples()
    ensures AdvertisedPoints(2, 1, 2, 1) == 10
    ensures AdvertisedPoints(2, 1, 3, 1) == 5
    ensures AdvertisedPoints(2, 1, 1, 1) == 0
    ensures AdvertisedPoints(0, 0, 2, 2) == 5
  {
  }
}
