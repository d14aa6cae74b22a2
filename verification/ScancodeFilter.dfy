/** The i8042 filter that recognises the firmware's touchpad-toggle key sequence in the scancode stream
    and hides the Zenkaku/Hankaku key of that sequence from the rest of the system. */
module ScancodeFilter {

  const HANKAKU_DOWN := 0x76
  const HANKAKU_UP := 0xf6

  const SEQ_LENGTH := 8

  type Position = p: nat | p < SEQ_LENGTH

  /** The touchpad-toggle sequence: Super down, Control down, Hankaku down and up, Control up, Super up. */
  function ToggleSeq(pos: Position): int {
    match pos
    case 0 => 0xe0
    case 1 => 0x5b
    case 2 => 0x1d
    case 3 => HANKAKU_DOWN
    case 4 => HANKAKU_UP
    case 5 => 0x9d
    case 6 => 0xe0
    case _ => 0xdb
  }

  /** A byte from the controller; `aux` tells the mouse port from the keyboard port. */
  datatype Input = Input(data: int, aux: bool)

  /** What one call of the filter does: the new position, whether the byte is suppressed, and whether
      the key event is scheduled. */
  datatype Outcome = Outcome(pos: Position, swallowed: bool, fired: bool)

  function Filter(pos: Position, i: Input): Outcome {
    if i.aux then Outcome(pos, false, false)
    else if i.data != ToggleSeq(pos) then Outcome(0, false, false)
    else if i.data == HANKAKU_DOWN || i.data == HANKAKU_UP then Outcome(pos + 1, true, false)
    else if pos + 1 == SEQ_LENGTH then Outcome(0, false, true)
    else Outcome(pos + 1, false, false)
  }

  class Uniwill8042Filter {
    var seqPos: Position

    constructor ()
      ensures seqPos == 0
    {
      seqPos := 0;
    }

    /** Returns whether the byte is swallowed; `fired` says whether the key event work was scheduled. */
    method Apply(data: int, aux: bool) returns (swallowed: bool, fired: bool)
      modifies this
      ensures Outcome(seqPos, swallowed, fired) == Filter(old(seqPos), Input(data, aux))
    {
      fired := false;
      if aux {
        return false, false;
      }
      if data == ToggleSeq(seqPos) {
        var next := seqPos + 1;
        if data == HANKAKU_DOWN || data == HANKAKU_UP {
          seqPos := next;
          return true, false;
        } else if next == SEQ_LENGTH {
          fired := true;
          next := 0;
        }
        seqPos := next;
        return false, fired;
      }
      seqPos := 0;
      return false, false;
    }
  }

  // ---------------------------------------------------------------------------------------------
  // Streams
  // ---------------------------------------------------------------------------------------------

  /** The filter's position after a stream. */
  function PosAfter(s: seq<Input>): Position {
    if s == [] then 0 else Filter(PosAfter(s[..|s| - 1]), s[|s| - 1]).pos
  }

  /** What the filter does with the `n`-th input of a stream. */
  function OutcomeAt(s: seq<Input>, n: nat): Outcome
    requires n < |s|
  {
    Filter(PosAfter(s[..n]), s[n])
  }

  /** The keyboard bytes of a stream. */
  function Keys(s: seq<Input>): seq<int> {
    if s == [] then []
    else if s[|s| - 1].aux then Keys(s[..|s| - 1])
    else Keys(s[..|s| - 1]) + [s[|s| - 1].data]
  }

  function FilterKey(pos: Position, key: int): Outcome {
    Filter(pos, Input(key, false))
  }

  /** Position after keyboard bytes alone, and what the filter did with them altogether: key events
      scheduled, Hankaku-down and Hankaku-up bytes swallowed. */
  datatype Tally = Tally(pos: Position, fired: nat, downs: nat, ups: nat)

  function Count(t: Tally, key: int): Tally {
    var o := FilterKey(t.pos, key);
    Tally(o.pos,
          if o.fired then t.fired + 1 else t.fired,
          if o.swallowed && key == HANKAKU_DOWN then t.downs + 1 else t.downs,
          if o.swallowed && key == HANKAKU_UP then t.ups + 1 else t.ups)
  }

  function TallyOf(keys: seq<int>): Tally {
    if keys == [] then Tally(0, 0, 0, 0) else Count(TallyOf(keys[..|keys| - 1]), keys[|keys| - 1])
  }

  /** Mouse bytes are transparent: the position depends on the keyboard bytes alone. */
  lemma {:induction false} AuxIsTransparent(s: seq<Input>)
    ensures PosAfter(s) == TallyOf(Keys(s)).pos
  {
    if s != [] {
      AuxIsTransparent(s[..|s| - 1]);
      if !s[|s| - 1].aux {
        assert Keys(s)[..|Keys(s)| - 1] == Keys(s[..|s| - 1]);
      }
    }
  }

  // ---------------------------------------------------------------------------------------------
  // Detection
  // ---------------------------------------------------------------------------------------------

  /** The last `n` of these keyboard bytes are the first `n` of the sequence. */
  predicate EndsWithPrefix(keys: seq<int>, n: nat)
    ensures EndsWithPrefix(keys, n) ==> n <= |keys| && n <= SEQ_LENGTH
  {
    n == 0 ||
    (n <= |keys| && n <= SEQ_LENGTH && keys[|keys| - 1] == ToggleSeq(n - 1) &&
     EndsWithPrefix(keys[..|keys| - 1], n - 1))
  }

  /** The filter's position counts keyboard bytes that spell the sequence so far, and they were read
      from position 0. */
  lemma {:induction false} PositionSpellsPrefix(keys: seq<int>)
    ensures EndsWithPrefix(keys, TallyOf(keys).pos)
    ensures TallyOf(keys[..|keys| - TallyOf(keys).pos]).pos == 0
  {
    var pos := TallyOf(keys).pos;
    if pos == 0 {
      assert keys[..|keys|] == keys;
    } else {
      var front := keys[..|keys| - 1];
      PositionSpellsPrefix(front);
      assert TallyOf(front).pos == pos - 1;
      assert keys[..|keys| - pos] == front[..|front| - (pos - 1)];
    }
  }

  /** From position 0 the first `n` bytes of the sequence are followed step by step. */
  lemma {:induction false} PrefixIsFollowed(keys: seq<int>, n: nat)
    requires EndsWithPrefix(keys, n) && n < SEQ_LENGTH && TallyOf(keys[..|keys| - n]).pos == 0
    ensures TallyOf(keys).pos == n
  {
    if n == 0 {
      assert keys[..|keys|] == keys;
    } else {
      var front := keys[..|keys| - 1];
      assert front[..|front| - (n - 1)] == keys[..|keys| - n];
      PrefixIsFollowed(front, n - 1);
    }
  }

  /** The last eight keyboard bytes are the sequence, and the filter was at position 0 before them. */
  predicate Toggles(keys: seq<int>) {
    EndsWithPrefix(keys, SEQ_LENGTH) && TallyOf(keys[..|keys| - SEQ_LENGTH]).pos == 0
  }

  lemma FiresExactly(front: seq<int>, key: int)
    ensures FilterKey(TallyOf(front).pos, key).fired <==> Toggles(front + [key])
  {
    var keys := front + [key];
    assert keys[..|keys| - 1] == front;
    if FilterKey(TallyOf(front).pos, key).fired {
      PositionSpellsPrefix(front);
      assert keys[..|keys| - 8] == front[..|front| - 7];
    }
    if Toggles(keys) {
      assert keys[..|keys| - 8] == front[..|front| - 7];
      PrefixIsFollowed(front, 7);
      assert keys[|keys| - 1] == ToggleSeq(7);
    }
  }

  /** The last eight keyboard bytes are these. */
  predicate EndsWithSequence(keys: seq<int>) {
    |keys| >= 8 && keys[|keys| - 8..] == [0xe0, 0x5b, 0x1d, 0x76, 0xf6, 0x9d, 0xe0, 0xdb]
  }

  lemma {:induction false} PrefixBytes(keys: seq<int>, n: nat)
    requires n <= SEQ_LENGTH && n <= |keys|
    ensures EndsWithPrefix(keys, n) <==> forall i :: 0 <= i < n ==> keys[|keys| - n + i] == ToggleSeq(i)
  {
    if n > 0 {
      PrefixBytes(keys[..|keys| - 1], n - 1);
    }
  }

  lemma SequenceIsThePrefix(keys: seq<int>)
    ensures EndsWithPrefix(keys, SEQ_LENGTH) <==> EndsWithSequence(keys)
  {
    if |keys| >= 8 {
      PrefixBytes(keys, 8);
      var last := keys[|keys| - 8..];
      assert forall i :: 0 <= i < 8 ==> last[i] == keys[|keys| - 8 + i];
      assert ToggleSeq(0) == 0xe0 && ToggleSeq(1) == 0x5b && ToggleSeq(2) == 0x1d && ToggleSeq(3) == 0x76;
      assert ToggleSeq(4) == 0xf6 && ToggleSeq(5) == 0x9d && ToggleSeq(6) == 0xe0 && ToggleSeq(7) == 0xdb;
    }
  }

  /** The key event is scheduled by exactly those keyboard bytes that complete the sequence from
      position 0; no mouse byte, and nothing else, schedules it. */
  lemma DetectsExactly(s: seq<Input>, n: nat)
    requires n < |s|
    ensures OutcomeAt(s, n).fired <==> !s[n].aux && Toggles(Keys(s[..n + 1]))
    ensures OutcomeAt(s, n).fired ==> EndsWithSequence(Keys(s[..n + 1]))
    ensures var keys := Keys(s[..n + 1]);
            !s[n].aux && EndsWithSequence(keys) && TallyOf(keys[..|keys| - 8]).pos == 0 ==> OutcomeAt(s, n).fired
  {
    SequenceIsThePrefix(Keys(s[..n + 1]));
    assert s[..n + 1][..n] == s[..n];
    AuxIsTransparent(s[..n]);
    if !s[n].aux {
      FiresExactly(Keys(s[..n]), s[n].data);
    }
  }

  /** The filter restarts at zero without looking at the mismatching byte again, so one stray first byte
      right before a complete sequence hides it. */
  lemma StrayByteHidesSequence(keys: seq<int>)
    requires |keys| >= 9 && EndsWithPrefix(keys, SEQ_LENGTH)
    requires TallyOf(keys[..|keys| - 9]).pos == 0 && keys[|keys| - 9] == ToggleSeq(0)
    ensures !Toggles(keys)
  {
    var before := keys[..|keys| - 8];
    assert before[..|before| - 1] == keys[..|keys| - 9];
  }

  // ---------------------------------------------------------------------------------------------
  // Swallowing
  // ---------------------------------------------------------------------------------------------

  /** How many leading bytes of `keys` spell the sequence, counting from `n`. */
  function Spelled(keys: seq<int>, n: nat): (r: nat)
    requires n <= |keys| && n <= SEQ_LENGTH && forall i :: 0 <= i < n ==> keys[i] == ToggleSeq(i)
    ensures n <= r <= |keys| && r <= SEQ_LENGTH && forall i :: 0 <= i < r ==> keys[i] == ToggleSeq(i)
    ensures r < |keys| && r < SEQ_LENGTH ==> keys[r] != ToggleSeq(r)
    decreases |keys| - n
  {
    if n < |keys| && n < SEQ_LENGTH && keys[n] == ToggleSeq(n) then Spelled(keys, n + 1) else n
  }

  /** The keyboard bytes read attempt by attempt, with no automaton: an attempt ends when it has spelled
      the whole sequence (`matched`), or with the byte that does not fit, or it is still open at the end
      (`open` bytes long). `afterDown` counts the unfinished attempts that stopped right after
      Hankaku-down, `afterUp` those that got further. */
  datatype Attempts = Attempts(open: nat, matched: nat, afterDown: nat, afterUp: nat)

  function AddAttempt(p: Attempts, n: nat): Attempts
    requires n <= SEQ_LENGTH
  {
    p.(matched := if n == SEQ_LENGTH then p.matched + 1 else p.matched,
       afterDown := if n == 4 then p.afterDown + 1 else p.afterDown,
       afterUp := if 4 < n < SEQ_LENGTH then p.afterUp + 1 else p.afterUp)
  }

  function Parse(keys: seq<int>): Attempts
    decreases |keys|
  {
    if keys == [] then Attempts(0, 0, 0, 0) else
      var n := Spelled(keys, 0);
      AddAttempt(if n == SEQ_LENGTH then Parse(keys[n..])
                 else if n < |keys| then Parse(keys[n + 1..])
                 else Attempts(n, 0, 0, 0), n)
  }

  /** `u` is `t` plus what the attempts in `p` account for. */
  predicate Accounts(t: Tally, p: Attempts, u: Tally) {
    && u.pos == p.open
    && u.fired == t.fired + p.matched
    && u.downs == t.downs + p.matched + p.afterDown + p.afterUp
    && u.ups == t.ups + p.matched + p.afterUp
  }

  /** What one attempt that spelled `n` bytes adds to a tally taken at position 0. */
  function WithAttempt(t: Tally, n: nat): Tally
    requires n <= SEQ_LENGTH
  {
    Tally(if n == SEQ_LENGTH then 0 else n,
          if n == SEQ_LENGTH then t.fired + 1 else t.fired,
          if n >= 4 then t.downs + 1 else t.downs,
          if n >= 5 then t.ups + 1 else t.ups)
  }

  lemma NextByteCounts(t: Tally, n: Position)
    ensures Count(WithAttempt(t, n), ToggleSeq(n)) == WithAttempt(t, n + 1)
  {
  }

  lemma MisfitCounts(t: Tally, n: Position, key: int)
    requires key != ToggleSeq(n)
    ensures Count(WithAttempt(t, n), key) == WithAttempt(t, n).(pos := 0)
  {
  }

  /** The same tally taken from the front. */
  function TallyFrom(t: Tally, keys: seq<int>): Tally
    decreases |keys|
  {
    if keys == [] then t else TallyFrom(Count(t, keys[0]), keys[1..])
  }

  lemma {:induction false} TallyFromSnoc(t: Tally, keys: seq<int>, key: int)
    ensures TallyFrom(t, keys + [key]) == Count(TallyFrom(t, keys), key)
    decreases |keys|
  {
    if keys != [] {
      TallyFromSnoc(Count(t, keys[0]), keys[1..], key);
      assert (keys + [key])[1..] == keys[1..] + [key];
    }
  }

  lemma {:induction false} TallyFromStart(keys: seq<int>)
    ensures TallyOf(keys) == TallyFrom(Tally(0, 0, 0, 0), keys)
  {
    if keys != [] {
      TallyFromStart(keys[..|keys| - 1]);
      TallyFromSnoc(Tally(0, 0, 0, 0), keys[..|keys| - 1], keys[|keys| - 1]);
      assert keys == keys[..|keys| - 1] + [keys[|keys| - 1]];
    }
  }

  /** An attempt that spells `n` bytes from position 0 is followed that far ... */
  lemma {:induction false} AttemptIsFollowed(t: Tally, keys: seq<int>, n: nat)
    requires t.pos == 0
    requires n <= |keys| && n <= SEQ_LENGTH && forall i :: 0 <= i < n ==> keys[i] == ToggleSeq(i)
    ensures TallyFrom(t, keys) == TallyFrom(WithAttempt(t, n), keys[n..])
  {
    if n > 0 {
      AttemptIsFollowed(t, keys, n - 1);
      NextByteCounts(t, n - 1);
      assert keys[n - 1..][1..] == keys[n..];
    }
  }

  /** ... and the byte that does not fit ends it. */
  lemma AttemptIsAbandoned(t: Tally, keys: seq<int>, n: nat)
    requires n < |keys| && n < SEQ_LENGTH && keys[n] != ToggleSeq(n)
    ensures TallyFrom(WithAttempt(t, n), keys[n..]) == TallyFrom(WithAttempt(t, n).(pos := 0), keys[n + 1..])
  {
    MisfitCounts(t, n, keys[n]);
    assert keys[n..][1..] == keys[n + 1..];
  }

  lemma AttemptAccounts(t: Tally, n: nat, p: Attempts, u: Tally)
    requires n <= SEQ_LENGTH && Accounts(WithAttempt(t, n), p, u)
    ensures Accounts(t, AddAttempt(p, n), u)
  {
  }

  lemma {:induction false} ParseExplains(t: Tally, keys: seq<int>)
    requires t.pos == 0
    ensures Accounts(t, Parse(keys), TallyFrom(t, keys))
    decreases |keys|
  {
    if keys != [] {
      var n := Spelled(keys, 0);
      var rest := if n < |keys| && n < SEQ_LENGTH then keys[n + 1..] else keys[n..];
      AttemptIsFollowed(t, keys, n);
      if n < SEQ_LENGTH && n < |keys| {
        AttemptIsAbandoned(t, keys, n);
      }
      if n == SEQ_LENGTH || n < |keys| {
        ParseExplains(WithAttempt(t, n).(pos := 0), rest);
        AttemptAccounts(t, n, Parse(rest), TallyFrom(t, keys));
      }
    }
  }

  /** Over every stream the key event is scheduled once per completed attempt; each of those swallows one
      Hankaku-down and one Hankaku-up; and the downs swallowed in excess of the ups are exactly the
      attempts abandoned, or still waiting, right after Hankaku-down. */
  lemma SwallowBalance(s: seq<Input>)
    ensures var t, p := TallyOf(Keys(s)), Parse(Keys(s));
            && t.fired == p.matched && PosAfter(s) == p.open
            && t.downs == p.matched + p.afterDown + p.afterUp
            && t.ups == p.matched + p.afterUp
            && t.downs - t.ups == p.afterDown
  {
    AuxIsTransparent(s);
    TallyFromStart(Keys(s));
    ParseExplains(Tally(0, 0, 0, 0), Keys(s));
  }

  /** The last keyboard byte before input `n`, when the filter is not at position 0 there. */
  lemma {:induction false} LastKeyBefore(s: seq<Input>, n: nat) returns (m: nat)
    requires n <= |s| && PosAfter(s[..n]) > 0
    ensures m < n && !s[m].aux && (forall j :: m < j < n ==> s[j].aux)
    ensures OutcomeAt(s, m).pos == PosAfter(s[..n])
  {
    assert s[..n][..n - 1] == s[..n - 1];
    if s[n - 1].aux {
      m := LastKeyBefore(s, n - 1);
    } else {
      m := n - 1;
    }
  }

  /** `m` is the swallowed Hankaku-down that belongs to a swallowed Hankaku-up at `n`. */
  predicate PairedDown(s: seq<Input>, m: nat, n: nat)
    requires n < |s|
  {
    && m < n && OutcomeAt(s, m).swallowed && s[m].data == HANKAKU_DOWN
    && forall j :: m < j < n ==> s[j].aux
  }

  /** Nothing but the two Hankaku bytes from the keyboard is ever suppressed, and a suppressed
      Hankaku-up is the next keyboard byte after a suppressed Hankaku-down. */
  lemma SwallowsOnlyPairs(s: seq<Input>, n: nat)
    requires n < |s| && OutcomeAt(s, n).swallowed
    ensures !s[n].aux && (s[n].data == 0x76 || s[n].data == 0xf6)
    ensures s[n].data == 0xf6 ==> exists m :: PairedDown(s, m, n)
  {
    if s[n].data == HANKAKU_UP {
      assert PosAfter(s[..n]) == 4;
      var m := LastKeyBefore(s, n);
      assert PairedDown(s, m, n);
    }
  }
}
