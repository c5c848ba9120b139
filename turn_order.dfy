/**
 * The round-robin turn scheduler of the test converter (src/part1tovm.py,
 * `PlayerPointer`). Whether a player can move is a question to the game; here
 * it is the snapshot `canMove`, which no scheduler step changes.
 */
module TurnOrder {
  import opened Wrappers

  // ---------------------------------------------------------------------------
  // The cycle of players.

  /** `p % players` for a player p in 1 .. players. */
  lemma ModOfPlayer(p: int, players: int)
    requires 1 <= p <= players
    ensures p % players == if p == players then 0 else p
  {
    if p == players {
      assert p % players == (1 * players + 0) % players;
    }
  }

  /**
   * The k-th player tried after `current`, for k from 1 to players + 1: the
   * first is (current mod players) + 1, each next one is `next % players + 1`.
   */
  function Candidate(current: int, players: int, k: int): (p: int)
    requires players >= 1 && 1 <= k <= players + 1
    ensures 1 <= p <= players
  {
    var s := current % players + k;
    if s <= players then s else s - players
  }

  /** The players tried one after another are `next % players + 1` each time. */
  lemma CandidateStep(current: int, players: int, k: int)
    requires players >= 1 && 1 <= k <= players
    ensures Candidate(current, players, k) % players + 1 == Candidate(current, players, k + 1)
  {
    ModOfPlayer(Candidate(current, players, k), players);
  }

  /** Trying i players on, then m more, is trying i + m players on. */
  lemma CandidateCompose(current: int, players: int, i: int, m: int)
    requires players >= 1 && 1 <= i && 1 <= m && i + m <= players
    ensures Candidate(Candidate(current, players, i), players, m) == Candidate(current, players, i + m)
  {
    ModOfPlayer(Candidate(current, players, i), players);
  }

  /** How many players on from `current` the player `p` comes, between 1 and players. */
  function Distance(current: int, players: int, p: int): (k: int)
    requires players >= 1 && 1 <= p <= players
    ensures 1 <= k <= players && Candidate(current, players, k) == p
  {
    var f := current % players;
    if p > f then p - f else p - f + players
  }

  /** The first `players` candidates are all different. */
  lemma CandidateInjective(current: int, players: int, j: int, k: int)
    requires players >= 1 && 1 <= j <= players && 1 <= k <= players
    requires Candidate(current, players, j) == Candidate(current, players, k)
    ensures j == k
  {
  }

  /** The scan wraps around: one full turn on, the first candidate comes again. */
  lemma CandidateWraps(current: int, players: int)
    requires players >= 1
    ensures Candidate(current, players, players + 1) == Candidate(current, players, 1)
  {
  }

  // ---------------------------------------------------------------------------
  // What `advance` computes.

  /** The first candidate from the `from`-th on that can move, or players + 1 when none can. */
  function FirstMover(current: int, players: int, canMove: int -> bool, from: int): (i: int)
    requires players >= 1 && 1 <= from <= players + 1
    ensures from <= i <= players + 1
    ensures i <= players ==> canMove(Candidate(current, players, i))
    ensures forall j :: from <= j < i ==> !canMove(Candidate(current, players, j))
    decreases players + 1 - from
  {
    if from > players then from
    else if canMove(Candidate(current, players, from)) then from
    else FirstMover(current, players, canMove, from + 1)
  }

  /** Where one `advance` leaves the pointer. */
  function Step(current: int, players: int, canMove: int -> bool): int
    requires players >= 1
  {
    var i := FirstMover(current, players, canMove, 1);
    if i <= players then Candidate(current, players, i) else current
  }

  /** A mover is found exactly when some player can move. */
  lemma MoverFoundIffSomeCanMove(current: int, players: int, canMove: int -> bool)
    requires players >= 1
    ensures FirstMover(current, players, canMove, 1) <= players <==>
      exists p :: 1 <= p <= players && canMove(p)
  {
    if p :| 1 <= p <= players && canMove(p) {
      var d := Distance(current, players, p);
      assert FirstMover(current, players, canMove, 1) <= d;
    }
  }

  /** The pointer after `n` advances. */
  function Advanced(current: int, players: int, canMove: int -> bool, n: nat): int
    requires players >= 1
    decreases n
  {
    if n == 0 then current else Advanced(Step(current, players, canMove), players, canMove, n - 1)
  }

  lemma {:induction false} AdvancedStep(current: int, players: int, canMove: int -> bool, n: nat)
    requires players >= 1
    ensures Advanced(current, players, canMove, n + 1) == Step(Advanced(current, players, canMove, n), players, canMove)
    decreases n
  {
    if n > 0 {
      AdvancedStep(Step(current, players, canMove), players, canMove, n - 1);
    }
  }

  /**
   * A player who can move is reached within one full turn: each advance either
   * lands on them or on a mover strictly between the pointer and them.
   */
  lemma {:induction false} MoverReached(current: int, players: int, canMove: int -> bool, p: int) returns (n: nat)
    requires players >= 1 && 1 <= p <= players && canMove(p)
    ensures n <= (if current == p then 0 else Distance(current, players, p))
    ensures Advanced(current, players, canMove, n) == p
    decreases if current == p then 0 else Distance(current, players, p)
  {
    if current == p {
      return 0;
    }
    var d := Distance(current, players, p);
    var i := FirstMover(current, players, canMove, 1);
    assert i <= d;
    var next := Candidate(current, players, i);
    if i == d {
      return 1;
    }
    CandidateCompose(current, players, i, d - i);
    if next != p {
      CandidateInjective(next, players, Distance(next, players, p), d - i);
    }
    var m := MoverReached(next, players, canMove, p);
    assert Step(current, players, canMove) == next;
    return m + 1;
  }

  /** The pointer to the player whose turn it is, in a game of `players` players. */
  class PlayerPointer {
    var current: int
    const players: int

    constructor (start: int, players: int)
      ensures current == start && this.players == players
    {
      current := start;
      this.players := players;
    }

    /** `reset`. */
    method Reset()
      modifies this
      ensures current == 1
    {
      current := 1;
    }

    /**
     * `advance`: from the next player on in cyclic order, the first one who can
     * move gets the turn; when nobody can, the pointer stays and the answer is false.
     */
    method Advance(canMove: int -> bool) returns (moved: bool)
      requires players >= 1
      modifies this
      ensures moved <==> exists p :: 1 <= p <= players && canMove(p)
      ensures current == Step(old(current), players, canMove)
      ensures moved ==> 1 <= current <= players && canMove(current)
    {
      ghost var c0 := current;
      MoverFoundIffSomeCanMove(c0, players, canMove);
      var next := current % players + 1;
      var guard := next;
      assert next == Candidate(c0, players, 1);
      if canMove(next) {
        current := next;
        return true;
      }
      ghost var k := 1;
      while true
        invariant 1 <= k <= players && next == Candidate(c0, players, k)
        invariant FirstMover(c0, players, canMove, 1) == FirstMover(c0, players, canMove, k + 1)
        invariant current == c0
        decreases players - k
      {
        CandidateStep(c0, players, k);
        next := next % players + 1;
        k := k + 1;
        if canMove(next) {
          if k == players + 1 {
            CandidateWraps(c0, players);
            assert false;
          }
          current := next;
          return true;
        }
        if next == guard {
          if k <= players {
            CandidateInjective(c0, players, k, 1);
          }
          break;
        }
        if k == players + 1 {
          CandidateWraps(c0, players);
          assert false;
        }
      }
      return false;
    }

    /**
     * `count_skips_to_player`: how many advances bring the turn to `player`,
     * counted on a copy, or None once that exceeds players + 2. The pointer
     * itself does not move.
     */
    method CountSkipsToPlayer(player: int, canMove: int -> bool) returns (r: Option<int>)
      requires players >= 1
      ensures r.Some? ==> (0 <= r.value <= players + 2 &&
        Advanced(current, players, canMove, r.value) == player &&
        forall j :: 0 <= j < r.value ==> Advanced(current, players, canMove, j) != player)
      ensures r.None? <==> forall j :: 0 <= j <= players + 2 ==> Advanced(current, players, canMove, j) != player
    {
      var simulation := new PlayerPointer(current, players);
      var maxSkips := players + 2;
      var skips := 0;
      while simulation.current != player
        invariant 0 <= skips <= maxSkips
        invariant simulation.current == Advanced(current, players, canMove, skips)
        invariant forall j :: 0 <= j < skips ==> Advanced(current, players, canMove, j) != player
        decreases maxSkips - skips
      {
        AdvancedStep(current, players, canMove, skips);
        var _ := simulation.Advance(canMove);
        skips := skips + 1;
        if skips > maxSkips {
          return None;
        }
      }
      return Some(skips);
    }
  }

  /** A player who can move is always found by `count_skips_to_player`. */
  method CountFindsMover(pointer: PlayerPointer, player: int, canMove: int -> bool) returns (r: Option<int>)
    requires pointer.players >= 1 && 1 <= player <= pointer.players && canMove(player)
    ensures r.Some? && r.value <= pointer.players
  {
    ghost var n := MoverReached(pointer.current, pointer.players, canMove, player);
    r := pointer.CountSkipsToPlayer(player, canMove);
    if r.None? {
      assert false;
    }
  }
}
