/** Stores to the same NB05 fan from several threads, cell by cell. Single cell writes are atomic, but a
    store writes the nine cells of the duty table and then the nine of the rpm table without a lock. */
module Nb05FanRaces {
  import opened Common
  import opened Nb05Fan

  /** The cells in the order in which a store writes them. */
  const CELLS := 18

  function CellValue(pwm: u8, cell: nat): u8
    requires cell < CELLS
  {
    if cell < 7 then Duty(pwm)
    else if cell < 9 then Max(Duty(pwm), FAN_SET_DUTY_HIGHTEMP)
    else if cell < 16 then Rpm(pwm)
    else Max(Rpm(pwm), FAN_SET_RPM_HIGHTEMP)
  }

  datatype Write = Write(store: nat, cell: nat)

  type Cells = c: seq<u8> | |c| == CELLS witness seq(CELLS, i => 0)

  /** How many cells a store has written. */
  function Progress(h: seq<Write>, s: nat): nat {
    if h == [] then 0
    else Progress(h[..|h| - 1], s) + (if h[|h| - 1].store == s then 1 else 0)
  }

  /** Any interleaving of stores, each of which writes its cells in order. */
  predicate Runs(h: seq<Write>) {
    h == [] ||
    (&& Runs(h[..|h| - 1])
     && h[|h| - 1].cell == Progress(h[..|h| - 1], h[|h| - 1].store) < CELLS)
  }

  function After(before: Cells, pwm: nat -> u8, h: seq<Write>): Cells
    requires Runs(h)
  {
    if h == [] then before
    else
      var w := h[|h| - 1];
      After(before, pwm, h[..|h| - 1])[w.cell := CellValue(pwm(w.store), w.cell)]
  }

  function LastWriter(h: seq<Write>, cell: nat): Option<nat> {
    if h == [] then None
    else if h[|h| - 1].cell == cell then Some(h[|h| - 1].store)
    else LastWriter(h[..|h| - 1], cell)
  }

  /** In every interleaving each cell holds what the store that wrote it last asked for. */
  lemma {:induction false} CellsByLastWriter(before: Cells, pwm: nat -> u8, h: seq<Write>, cell: nat)
    requires Runs(h) && cell < CELLS
    ensures After(before, pwm, h)[cell] ==
            match LastWriter(h, cell) case None => before[cell] case Some(s) => CellValue(pwm(s), cell)
  {
    if h != [] {
      CellsByLastWriter(before, pwm, h[..|h| - 1], cell);
    }
  }

  /** So no interleaving leaves a speed in the dead band or above the maximum, or lets a fan stand still at
      high temperatures. */
  lemma CellsAreAllowedAlways(before: Cells, pwm: nat -> u8, h: seq<Write>, cell: nat)
    requires Runs(h) && cell < CELLS && LastWriter(h, cell).Some?
    ensures var v := After(before, pwm, h)[cell];
            && (cell < 7 ==> AllowedDuty(v))
            && (7 <= cell < 9 ==> 51 <= v <= FAN_SET_DUTY_MAX)
            && (9 <= cell < 16 ==> v == 0 || 13 <= v <= FAN_SET_RPM_MAX)
            && (16 <= cell ==> 15 <= v <= FAN_SET_RPM_MAX)
            && (7 <= cell < 9 ==> v >= Duty(pwm(LastWriter(h, cell).value)))
            && (16 <= cell ==> v >= Rpm(pwm(LastWriter(h, cell).value)))
  {
    CellsByLastWriter(before, pwm, h, cell);
    UnitsAgreeOnOff(pwm(LastWriter(h, cell).value));
  }

  /** The `i`-th access is the store's write of a cell that nobody writes again. */
  predicate Final(h: seq<Write>, i: nat, s: nat, cell: nat) {
    i < |h| && h[i] == Write(s, cell) && forall j :: i < j < |h| ==> h[j].cell != cell
  }

  /** The store has a final write of this cell. */
  ghost predicate WritesLast(h: seq<Write>, s: nat, cell: nat) {
    exists i: nat :: Final(h, i, s, cell)
  }

  lemma {:induction false} LastWriterIsFinal(h: seq<Write>, s: nat, cell: nat)
    ensures LastWriter(h, cell) == Some(s) <==> WritesLast(h, s, cell)
  {
    if h != [] {
      var front, w := h[..|h| - 1], h[|h| - 1];
      LastWriterIsFinal(front, s, cell);
      if w.cell == cell {
        if w.store == s {
          assert Final(h, |h| - 1, s, cell);
        } else {
          forall i: nat ensures !Final(h, i, s, cell) {
            if i < |h| - 1 && h[i] == Write(s, cell) {
              assert h[|h| - 1].cell == cell;
            }
          }
        }
      } else {
        if exists i: nat :: Final(front, i, s, cell) {
          var i: nat :| Final(front, i, s, cell);
          assert Final(h, i, s, cell);
        }
        if exists i: nat :: Final(h, i, s, cell) {
          var i: nat :| Final(h, i, s, cell);
          assert i < |front|;
          assert Final(front, i, s, cell);
        }
      }
    }
  }

  /** Every cell holds what this store asked for. */
  ghost predicate TablesAreOf(h: seq<Write>, s: nat) {
    forall cell: nat :: cell < CELLS ==> LastWriter(h, cell) == Some(s)
  }

  /** Nobody overtakes this store in any cell. */
  ghost predicate NeverOvertaken(h: seq<Write>, s: nat) {
    forall cell: nat :: cell < CELLS ==> WritesLast(h, s, cell)
  }

  /** The tables are one store's exactly if nobody overtakes it in any cell. */
  lemma TablesAreOneStoresExactly(h: seq<Write>, s: nat)
    ensures TablesAreOf(h, s) <==> NeverOvertaken(h, s)
  {
    if TablesAreOf(h, s) {
      forall cell: nat | cell < CELLS ensures WritesLast(h, s, cell) {
        LastWriterIsFinal(h, s, cell);
      }
      assert NeverOvertaken(h, s);
    }
    if NeverOvertaken(h, s) {
      forall cell: nat | cell < CELLS ensures LastWriter(h, cell) == Some(s) {
        assert WritesLast(h, s, cell);
        LastWriterIsFinal(h, s, cell);
      }
      assert TablesAreOf(h, s);
    }
  }

  /** The first `n` writes of a store. */
  function OneStore(s: nat, n: nat): (w: seq<Write>)
    ensures |w| == n
  {
    if n == 0 then [] else OneStore(s, n - 1) + [Write(s, n - 1)]
  }

  /** A store that nobody disturbs from its first write on has both tables for itself, whatever went before. */
  lemma {:induction false} UndisturbedStoreWins(h: seq<Write>, s: nat, n: nat, cell: nat)
    requires Runs(h) && Progress(h, s) == 0 && n <= CELLS
    ensures Runs(h + OneStore(s, n)) && Progress(h + OneStore(s, n), s) == n
    ensures LastWriter(h + OneStore(s, n), cell) == if cell < n then Some(s) else LastWriter(h, cell)
  {
    if n == 0 {
      assert h + OneStore(s, 0) == h;
    } else {
      UndisturbedStoreWins(h, s, n - 1, cell);
      OneMoreWrite(h + OneStore(s, n - 1), Write(s, n - 1), s, cell);
      assert h + OneStore(s, n) == h + OneStore(s, n - 1) + [Write(s, n - 1)];
    }
  }

  lemma OneMoreWrite(h: seq<Write>, w: Write, s: nat, cell: nat)
    requires Runs(h) && w.cell == Progress(h, w.store) < CELLS
    ensures Runs(h + [w]) && Progress(h + [w], s) == Progress(h, s) + (if w.store == s then 1 else 0)
    ensures LastWriter(h + [w], cell) == if w.cell == cell then Some(w.store) else LastWriter(h, cell)
  {
    assert (h + [w])[..|h|] == h;
  }

  lemma {:induction false} OthersProgress(h: seq<Write>, s: nat, t: nat, n: nat)
    requires s != t
    ensures Progress(h + OneStore(s, n), t) == Progress(h, t)
  {
    if n == 0 {
      assert h + OneStore(s, 0) == h;
    } else {
      OthersProgress(h, s, t, n - 1);
      assert (h + OneStore(s, n))[..|h| + n - 1] == h + OneStore(s, n - 1);
    }
  }

  /** Two stores can leave a mixed table: one is overtaken after its first cell and writes the next one last. */
  lemma TwoStoresMix(s: nat, t: nat) returns (h: seq<Write>)
    requires s != t
    ensures Runs(h) && LastWriter(h, 0) == Some(t) && LastWriter(h, 1) == Some(s) && LastWriter(h, 2) == Some(t)
  {
    var first := [] + [Write(s, 0)];
    OneMoreWrite([], Write(s, 0), s, 0);
    OneMoreWrite([], Write(s, 0), t, 0);
    var second := first + OneStore(t, CELLS);
    UndisturbedStoreWins(first, t, CELLS, 0);
    UndisturbedStoreWins(first, t, CELLS, 2);
    OthersProgress(first, t, s, CELLS);
    h := second + [Write(s, 1)];
    OneMoreWrite(second, Write(s, 1), s, 0);
    OneMoreWrite(second, Write(s, 1), s, 1);
    OneMoreWrite(second, Write(s, 1), s, 2);
  }
}
