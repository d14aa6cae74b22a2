/** The per-key frame of the ITE 8291 keyboard controller: a 6 by 21 colour matrix kept as six rows of
    three colour planes, sent row by row at every change unless input is buffered. */
module Ite8291 {
  import opened Common

  const EIO := 5
  const EINVAL := 22
  const NR_ROWS := 6
  const LEDS_PER_ROW := 21
  const ROW_DATA_PADDING := 2
  const ROW_DATA_LENGTH := 65
  const BRIGHTNESS_MAX: u8 := 0x32
  const PARAM_MODE_USER: u8 := 0x33

  datatype Color = Color(red: u8, green: u8, blue: u8)

  /** Colours by channel number; row and column of a channel are its quotient and remainder by 21. */
  type Matrix = m: seq<Color> | |m| == NR_ROWS * LEDS_PER_ROW
    witness seq(NR_ROWS * LEDS_PER_ROW, i => Color(0, 0, 0))

  type Row = r: seq<u8> | |r| == ROW_DATA_LENGTH witness seq(ROW_DATA_LENGTH, i => 0)
  type Frame = f: seq<Row> | |f| == NR_ROWS
    witness [BlankRow(), BlankRow(), BlankRow(), BlankRow(), BlankRow(), BlankRow()]

  function BlankRow(): Row {
    seq(ROW_DATA_LENGTH, k => 0)
  }

  function Channel(row: nat, column: nat): (c: nat)
    requires row < NR_ROWS && column < LEDS_PER_ROW
    ensures c < NR_ROWS * LEDS_PER_ROW
    ensures c / LEDS_PER_ROW == row && c % LEDS_PER_ROW == column
  {
    LEDS_PER_ROW * row + column
  }

  /** Byte `k` of a row: two padding bytes, then the blue, the green and the red plane. */
  function EncodedByte(m: Matrix, row: nat, k: nat): u8
    requires row < NR_ROWS && k < ROW_DATA_LENGTH
  {
    if k < ROW_DATA_PADDING then 0
    else
      var plane, column := (k - ROW_DATA_PADDING) / LEDS_PER_ROW, (k - ROW_DATA_PADDING) % LEDS_PER_ROW;
      var color := m[Channel(row, column)];
      if plane == 0 then color.blue else if plane == 1 then color.green else color.red
  }

  function EncodedRow(m: Matrix, row: nat): Row
    requires row < NR_ROWS
  {
    seq(ROW_DATA_LENGTH, k requires 0 <= k < ROW_DATA_LENGTH => EncodedByte(m, row, k))
  }

  function Encoded(m: Matrix): Frame {
    seq(NR_ROWS, row requires 0 <= row < NR_ROWS => EncodedRow(m, row))
  }

  /** The colour that a frame gives a channel. */
  function ColorOf(f: Frame, channel: nat): Color
    requires channel < NR_ROWS * LEDS_PER_ROW
  {
    var row, column := f[channel / LEDS_PER_ROW], channel % LEDS_PER_ROW;
    Color(row[ROW_DATA_PADDING + 2 * LEDS_PER_ROW + column],
          row[ROW_DATA_PADDING + LEDS_PER_ROW + column],
          row[ROW_DATA_PADDING + column])
  }

  /** A frame gives each channel the colour it was encoded from. */
  lemma DecodeEncoded(m: Matrix, channel: nat)
    requires channel < NR_ROWS * LEDS_PER_ROW
    ensures ColorOf(Encoded(m), channel) == m[channel]
  {
    var row, column := channel / LEDS_PER_ROW, channel % LEDS_PER_ROW;
    assert Channel(row, column) == channel;
    assert Encoded(m)[row] == EncodedRow(m, row);
    PlaneOf(0, column);
    PlaneOf(1, column);
    PlaneOf(2, column);
  }

  lemma PlaneOf(plane: nat, column: nat)
    requires plane < 3 && column < LEDS_PER_ROW
    ensures var k := ROW_DATA_PADDING + plane * LEDS_PER_ROW + column;
            && k < ROW_DATA_LENGTH
            && (k - ROW_DATA_PADDING) / LEDS_PER_ROW == plane && (k - ROW_DATA_PADDING) % LEDS_PER_ROW == column
  {
  }

  /** No two matrices have the same frame. */
  lemma EncodedIsInjective(m: Matrix, n: Matrix)
    requires Encoded(m) == Encoded(n)
    ensures m == n
  {
    forall c | 0 <= c < NR_ROWS * LEDS_PER_ROW ensures m[c] == n[c] {
      DecodeEncoded(m, c);
      DecodeEncoded(n, c);
    }
  }

  /** Where the planes of a column are, in the driver's terms. */
  predicate IsCell(k: nat, column: nat) {
    k == ROW_DATA_PADDING + 2 * LEDS_PER_ROW + column ||
    k == ROW_DATA_PADDING + LEDS_PER_ROW + column ||
    k == ROW_DATA_PADDING + column
  }

  /** Setting a channel changes the three bytes of its cell and no others. */
  lemma SetChangesThreeBytes(m: Matrix, channel: nat, c: Color, row: nat, k: nat)
    requires channel < NR_ROWS * LEDS_PER_ROW && row < NR_ROWS && k < ROW_DATA_LENGTH
    ensures var column := channel % LEDS_PER_ROW;
            EncodedByte(m[channel := c], row, k) ==
              if row != channel / LEDS_PER_ROW || !IsCell(k, column) then EncodedByte(m, row, k)
              else if k == ROW_DATA_PADDING + column then c.blue
              else if k == ROW_DATA_PADDING + LEDS_PER_ROW + column then c.green
              else c.red
  {
    var column := channel % LEDS_PER_ROW;
    if k >= ROW_DATA_PADDING {
      var plane, other := (k - ROW_DATA_PADDING) / LEDS_PER_ROW, (k - ROW_DATA_PADDING) % LEDS_PER_ROW;
      PlaneOf(plane, other);
      assert k == ROW_DATA_PADDING + plane * LEDS_PER_ROW + other;
    }
  }

  // ---------------------------------------------------------------------------------------------
  // The controller
  // ---------------------------------------------------------------------------------------------

  /** What the keyboard shows. */
  datatype Image = Image(lit: bool, brightness: u8, rows: Frame)

  /** The controller: its image, and the row that was announced last. */
  datatype Device = Device(image: Image, announced: u8) {
    function Control(report: seq<u8>): Device
      requires |report| == 8
    {
      if report[0] == 0x08 && report[1] == 0x02 && report[2] == PARAM_MODE_USER then
        this.(image := image.(lit := true, brightness := report[4]))
      else if report[0] == 0x08 && report[1] == 0x01 then this.(image := image.(lit := false))
      else if report[0] == 0x16 then this.(announced := report[2])
      else this
    }

    function Output(row: Row): Device {
      if announced < NR_ROWS then this.(image := image.(rows := image.rows[announced := row])) else this
    }
  }

  function ClampedBrightness(b: u8): u8 {
    if b > BRIGHTNESS_MAX then BRIGHTNESS_MAX else b
  }

  /** What the driver holds: the matrix and one brightness for all keys. */
  datatype Picture = Picture(matrix: Matrix, brightness: u8)

  /** What the output reports of one transfer return, row by row. */
  type Results = r: seq<int> | |r| == NR_ROWS witness [0, 0, 0, 0, 0, 0]

  type Announcements = a: seq<bool> | |a| == NR_ROWS witness [true, true, true, true, true, true]

  /** How one transfer goes: whether its first control report and the announcement of each row arrive, to
      which the driver pays no attention, and the results of the output reports. */
  datatype Transfer = Transfer(params: bool, announces: Announcements, results: Results)

  /** The first row whose output report failed, or 6. */
  function FirstFailure(results: seq<int>): (k: nat)
    ensures k <= |results|
    ensures forall i :: 0 <= i < k ==> results[i] >= 0
    ensures k < |results| ==> results[k] < 0
  {
    if results == [] || results[0] < 0 then 0 else 1 + FirstFailure(results[1..])
  }

  function ResultOf(results: Results): int {
    if FirstFailure(results) < NR_ROWS then results[FirstFailure(results)] else 0
  }

  /** 0 exactly if all reports work, else the result of the first that does not. */
  lemma ResultExactly(results: Results, k: nat)
    requires k < 6 && results[k] < 0 && forall i :: 0 <= i < k ==> results[i] >= 0
    ensures ResultOf(results) == results[k]
  {
    var f := FirstFailure(results);
    assert f >= k;
    assert f <= k;
  }

  lemma WorkingResult(results: Results)
    ensures ResultOf(results) == 0 <==> forall i :: 0 <= i < 6 ==> results[i] >= 0
  {
  }

  function WithParams(d: Device, brightness: u8, arrives: bool): Device {
    if arrives then d.(image := d.image.(lit := true, brightness := ClampedBrightness(brightness))) else d
  }

  function WithAnnouncement(d: Device, row: u8, arrives: bool): Device {
    if arrives then d.(announced := row) else d
  }

  /** The device after the first `n` rows of a transfer. */
  function Sent(d: Device, m: Matrix, t: Transfer, n: nat): Device
    requires n <= NR_ROWS
  {
    if n == 0 then d
    else WithAnnouncement(Sent(d, m, t, n - 1), n - 1, t.announces[n - 1]).Output(EncodedRow(m, n - 1))
  }

  /** The device after a transfer of this picture, which ends at the first output report that fails. */
  function Flushed(d: Device, p: Picture, t: Transfer): Device {
    var k := FirstFailure(t.results);
    var sent := Sent(WithParams(d, p.brightness, t.params), p.matrix, t, k);
    if k < NR_ROWS then WithAnnouncement(sent, k, t.announces[k]) else sent
  }

  // ---------------------------------------------------------------------------------------------
  // Which rows are right after a transfer
  // ---------------------------------------------------------------------------------------------

  /** The row that the controller writes to after `n` announcements, `first` being the one before. */
  function Target(first: u8, t: Transfer, n: nat): u8
    requires n <= NR_ROWS
  {
    if n == 0 then first else if t.announces[n - 1] then n - 1 else Target(first, t, n - 1)
  }

  /** What a row holds: what it held before, or the data sent for some row. */
  datatype Origin = Before | RowData(row: nat)

  function Holds(first: u8, t: Transfer, n: nat, row: nat): Origin
    requires n <= NR_ROWS
  {
    if n == 0 then Before
    else if Target(first, t, n) == row then RowData(n - 1)
    else Holds(first, t, n - 1, row)
  }

  lemma {:induction false} HoldsEarlierData(first: u8, t: Transfer, n: nat, row: nat)
    requires n <= NR_ROWS
    ensures Holds(first, t, n, row).RowData? ==> Holds(first, t, n, row).row < n
  {
    if n > 0 {
      HoldsEarlierData(first, t, n - 1, row);
    }
  }

  /** Every row holds what its origin says. */
  lemma {:induction false} RowsHold(d: Device, m: Matrix, t: Transfer, n: nat, row: nat)
    requires n <= NR_ROWS && row < NR_ROWS
    ensures var s := Sent(d, m, t, n);
            && s.announced == Target(d.announced, t, n)
            && s.image.lit == d.image.lit && s.image.brightness == d.image.brightness
            && match Holds(d.announced, t, n, row)
               case Before => s.image.rows[row] == d.image.rows[row]
               case RowData(j) => j < NR_ROWS && s.image.rows[row] == EncodedRow(m, j)
  {
    if n > 0 {
      RowsHold(d, m, t, n - 1, row);
      HoldsEarlierData(d.announced, t, n - 1, row);
    }
  }

  lemma {:induction false} TargetIsAbove(first: u8, t: Transfer, i: nat, n: nat)
    requires i < n <= NR_ROWS && t.announces[i]
    ensures Target(first, t, n) >= i
  {
    if i < n - 1 {
      TargetIsAbove(first, t, i, n - 1);
    }
  }

  /** A row gets its own data for good exactly if the controller writes to it when they are sent, and the
      next row, if any is sent, is announced; a lost announcement spoils the row before. */
  lemma {:induction false} RightExactly(first: u8, t: Transfer, n: nat, row: nat)
    requires n <= NR_ROWS
    ensures Holds(first, t, n, row) == RowData(row) <==>
            row < n && Target(first, t, row + 1) == row && (row + 1 < n ==> t.announces[row + 1])
  {
    if n > 0 {
      RightExactly(first, t, n - 1, row);
      HoldsEarlierData(first, t, n - 1, row);
      if row + 1 < n && t.announces[row + 1] {
        TargetIsAbove(first, t, row + 1, n);
      }
    }
  }

  /** In particular if both announcements arrive and the reports get past the row. */
  predicate Delivered(t: Transfer, row: nat)
    requires row < NR_ROWS
  {
    var k := FirstFailure(t.results);
    row < k && t.announces[row] && (row + 1 < k ==> t.announces[row + 1])
  }

  /** What a transfer leaves on the keyboard, however its reports fail. */
  lemma FlushedExactly(d: Device, p: Picture, t: Transfer, row: nat)
    requires row < NR_ROWS
    ensures var f, origin := Flushed(d, p, t), Holds(d.announced, t, FirstFailure(t.results), row);
            && f.image.lit == (t.params || d.image.lit)
            && (t.params && p.brightness <= 50 ==> f.image.brightness == p.brightness)
            && (t.params && p.brightness > 50 ==> f.image.brightness == 50)
            && (!t.params ==> f.image.brightness == d.image.brightness)
            && (origin.Before? ==> f.image.rows[row] == d.image.rows[row])
            && (origin.RowData? ==> origin.row < NR_ROWS && f.image.rows[row] == EncodedRow(p.matrix, origin.row))
            && (Delivered(t, row) ==> origin == RowData(row))
  {
    RowsHold(WithParams(d, p.brightness, t.params), p.matrix, t, FirstFailure(t.results), row);
    RightExactly(d.announced, t, FirstFailure(t.results), row);
  }

  // ---------------------------------------------------------------------------------------------
  // What each callback does
  // ---------------------------------------------------------------------------------------------

  function InitialPicture(scaling: (Color, int, int) -> Color): Picture {
    Picture(seq(NR_ROWS * LEDS_PER_ROW, c requires 0 <= c < NR_ROWS * LEDS_PER_ROW =>
                  scaling(Color(0xff, 0xff, 0xff), c / LEDS_PER_ROW, c % LEDS_PER_ROW)), 0)
  }

  function WithLed(
    scaling: (Color, int, int) -> Color, c: Picture, channel: nat, brightness: u8, intensity: Color): Picture
    requires channel < NR_ROWS * LEDS_PER_ROW
  {
    Picture(c.matrix[channel := scaling(intensity, channel / LEDS_PER_ROW, channel % LEDS_PER_ROW)], brightness)
  }

  datatype Machine = Machine(picture: Picture, buffered: bool, dev: Device, awake: bool)

  /** While the machine sleeps the keyboard may lose or change its state at any time. A text stored into the
      buffer attribute may name no truth value. */
  datatype Action =
    | SetLed(channel: nat, brightness: u8, intensity: Color, transfer: Transfer)
    | SetBuffer(on: Option<bool>, transfer: Transfer)
    | Suspend(arrives: bool)
    | StateLost(dev: Device)
    | Resume(transfer: Transfer)

  predicate Enabled(m: Machine, a: Action) {
    match a
    case SetLed(channel, _, _, _) => m.awake && channel < NR_ROWS * LEDS_PER_ROW
    case SetBuffer(_, _) => m.awake
    case Suspend(_) => m.awake
    case StateLost(_) => !m.awake
    case Resume(_) => !m.awake
  }

  function Perform(scaling: (Color, int, int) -> Color, m: Machine, a: Action): Machine
    requires Enabled(m, a)
  {
    match a
    case SetLed(channel, b, c, t) =>
      var p := WithLed(scaling, m.picture, channel, b, c);
      m.(picture := p, dev := if m.buffered then m.dev else Flushed(m.dev, p, t))
    case SetBuffer(on, t) =>
      if on.None? then m
      else m.(buffered := on.value, dev := if on.value then m.dev else Flushed(m.dev, m.picture, t))
    case Suspend(arrives) =>
      m.(dev := if arrives then m.dev.(image := m.dev.image.(lit := false)) else m.dev, awake := false)
    case StateLost(dev) => m.(dev := dev)
    case Resume(t) => m.(dev := Flushed(m.dev, m.picture, t), awake := true)
  }

  /** Right after probe, which does not look at the result of its transfer. */
  function Probed(scaling: (Color, int, int) -> Color, dev: Device, t: Transfer): Machine {
    Machine(InitialPicture(scaling), false, Flushed(dev, InitialPicture(scaling), t), true)
  }

  // ---------------------------------------------------------------------------------------------
  // The driver
  // ---------------------------------------------------------------------------------------------

  class Keyboard {
    /** The device's colour correction, which depends on its model and on the position. */
    const scaling: (Color, int, int) -> Color
    const rowData: array2<u8>
    var brightness: u8
    var bufferInput: bool
    var dev: Device
    /** The matrix that the row data stands for. */
    ghost var matrix: Matrix

    ghost predicate Valid()
      reads this, rowData
    {
      && rowData.Length0 == NR_ROWS && rowData.Length1 == ROW_DATA_LENGTH
      && forall i, k :: 0 <= i < NR_ROWS && 0 <= k < ROW_DATA_LENGTH ==> rowData[i, k] == EncodedByte(matrix, i, k)
    }

    /** Probe: all keys white, brightness 0. */
    constructor (scaling: (Color, int, int) -> Color, dev: Device, t: Transfer)
      ensures Valid() && fresh(rowData) && this.scaling == scaling
      ensures State() == Probed(scaling, dev, t)
    {
      this.scaling := scaling;
      this.dev := dev;
      rowData := new u8[NR_ROWS, ROW_DATA_LENGTH]((i, k) => 0);
      brightness := 0;
      bufferInput := false;
      matrix := seq(NR_ROWS * LEDS_PER_ROW, c => Color(0, 0, 0));
      new;
      for i := 0 to NR_ROWS
        invariant Valid() && fresh(rowData) && brightness == 0 && !bufferInput && this.dev == dev
        invariant forall c :: 0 <= c < LEDS_PER_ROW * i ==> matrix[c] == InitialPicture(scaling).matrix[c]
      {
        for j := 0 to LEDS_PER_ROW
          invariant Valid() && fresh(rowData) && brightness == 0 && !bufferInput && this.dev == dev
          invariant forall c :: 0 <= c < LEDS_PER_ROW * i + j ==> matrix[c] == InitialPicture(scaling).matrix[c]
        {
          var _ := RowDataSet(i, j, Color(0xff, 0xff, 0xff));
        }
      }
      assert matrix == InitialPicture(scaling).matrix;
      var _ := WriteState(t);
    }

    /** The driver and the keyboard, awake. */
    ghost function State(): Machine
      reads this
    {
      Machine(Picture(matrix, brightness), bufferInput, dev, true)
    }

    method RowDataSet(row: int, column: int, color: Color) returns (err: int)
      requires Valid()
      modifies rowData, this`matrix
      ensures Valid()
      ensures err == if 0 <= row < NR_ROWS && 0 <= column < LEDS_PER_ROW then 0 else -EINVAL
      ensures matrix == if err != 0 then old(matrix)
                        else old(matrix)[Channel(row, column) := scaling(color, row, column)]
    {
      var scaled := scaling(color, row, column);
      if row < 0 || row >= NR_ROWS {
        return -EINVAL;
      }
      if column < 0 || column >= LEDS_PER_ROW {
        return -EINVAL;
      }
      ghost var channel := Channel(row, column);
      forall i: nat, k: nat | i < NR_ROWS && k < ROW_DATA_LENGTH
        ensures EncodedByte(matrix[channel := scaled], i, k) ==
                  if i != row || !IsCell(k, column) then EncodedByte(matrix, i, k)
                  else if k == ROW_DATA_PADDING + column then scaled.blue
                  else if k == ROW_DATA_PADDING + LEDS_PER_ROW + column then scaled.green
                  else scaled.red
      {
        SetChangesThreeBytes(matrix, channel, scaled, i, k);
      }
      var columnIndexRed := ROW_DATA_PADDING + 2 * LEDS_PER_ROW + column;
      var columnIndexGreen := ROW_DATA_PADDING + 1 * LEDS_PER_ROW + column;
      var columnIndexBlue := ROW_DATA_PADDING + 0 * LEDS_PER_ROW + column;
      rowData[row, columnIndexRed] := scaled.red;
      rowData[row, columnIndexGreen] := scaled.green;
      rowData[row, columnIndexBlue] := scaled.blue;
      matrix := matrix[channel := scaled];
      return 0;
    }

    /** A control report that fails changes nothing. */
    method WriteControl(report: seq<u8>, arrives: bool) returns (result: int)
      requires |report| == 8
      modifies this`dev
      ensures result == if arrives then 0 else -EIO
      ensures dev == if arrives then old(dev).Control(report) else old(dev)
    {
      if !arrives {
        return -EIO;
      }
      dev := dev.Control(report);
      return 0;
    }

    method OutputReport(row: nat)
      requires Valid() && row < NR_ROWS
      modifies this`dev
      ensures dev == old(dev).Output(EncodedRow(matrix, row))
    {
      var data: Row :=
        seq(ROW_DATA_LENGTH, k requires 0 <= k < ROW_DATA_LENGTH && Valid() reads this, rowData => rowData[row, k]);
      assert data == EncodedRow(matrix, row);
      dev := dev.Output(data);
    }

    /** ite8291_write_rows. An output report that fails changes nothing on the keyboard and ends the
        transfer. */
    method WriteRows(t: Transfer) returns (result: int)
      requires Valid()
      modifies this`dev
      ensures result == ResultOf(t.results) && dev == Flushed(old(dev), Picture(matrix, brightness), t)
    {
      var level := if brightness > BRIGHTNESS_MAX then BRIGHTNESS_MAX else brightness;
      var _ := WriteControl([0x08, 0x02, PARAM_MODE_USER, 0, level, 0, 0, 0], t.params);
      result := 0;
      ghost var start := dev;
      for rowIndex := 0 to NR_ROWS
        invariant result >= 0 && forall i :: 0 <= i < rowIndex ==> t.results[i] >= 0
        invariant dev == Sent(start, matrix, t, rowIndex)
      {
        var _ := WriteControl([0x16, 0, rowIndex, 0, 0, 0, 0, 0], t.announces[rowIndex]);
        result := t.results[rowIndex];
        if result < 0 {
          assert FirstFailure(t.results) == rowIndex;
          return;
        }
        OutputReport(rowIndex);
      }
      if result > 0 {
        result := 0;
      }
    }

    /** ite8291_perkey_write_state. */
    method WriteState(t: Transfer) returns (result: int)
      requires Valid()
      modifies this`dev
      ensures result == ResultOf(t.results) && dev == Flushed(old(dev), Picture(matrix, brightness), t)
    {
      result := WriteRows(t);
    }

    /** leds_set_brightness_mc for the LED of a channel. */
    method SetBrightness(channel: nat, brightness: u8, intensity: Color, t: Transfer)
      requires Valid() && channel < NR_ROWS * LEDS_PER_ROW
      modifies this`brightness, this`matrix, this`dev, rowData
      ensures Valid() && State() == Perform(scaling, old(State()), SetLed(channel, brightness, intensity, t))
    {
      this.brightness := brightness;
      var _ := RowDataSet(channel / LEDS_PER_ROW, channel % LEDS_PER_ROW, intensity);
      if !bufferInput {
        var _ := WriteState(t);
      }
    }

    /** buffer_input_store; `on` is the truth value that the text names, if it names one. */
    method BufferInputStore(on: Option<bool>, t: Transfer) returns (err: int)
      requires Valid()
      modifies this`bufferInput, this`dev
      ensures Valid() && State() == Perform(scaling, old(State()), SetBuffer(on, t))
      ensures err == if on.None? then -EINVAL else 0
    {
      if on.None? {
        return -EINVAL;
      }
      bufferInput := on.value;
      if !bufferInput {
        var _ := WriteState(t);
      }
      return 0;
    }

    method SuspendCallback(arrives: bool) returns (result: int)
      modifies this`dev
      ensures State().(awake := false) == Perform(scaling, old(State()), Suspend(arrives))
      ensures result == 0
    {
      var _ := WriteControl([0x08, 0x01, 0, 0, 0, 0, 0, 0], arrives);
      return 0;
    }

    /** Resume and reset-resume write the state whether or not input is buffered. */
    method ResumeCallback(t: Transfer) returns (result: int)
      requires Valid()
      modifies this`dev
      ensures State() == Perform(scaling, old(State().(awake := false)), Resume(t))
      ensures result == ResultOf(t.results)
    {
      result := WriteState(t);
    }
  }

  // ---------------------------------------------------------------------------------------------
  // Histories
  // ---------------------------------------------------------------------------------------------

  predicate Runs(scaling: (Color, int, int) -> Color, m: Machine, actions: seq<Action>)
    decreases |actions|, 0
  {
    actions == [] ||
    (Runs(scaling, m, actions[..|actions| - 1]) &&
     Enabled(After(scaling, m, actions[..|actions| - 1]), actions[|actions| - 1]))
  }

  function After(scaling: (Color, int, int) -> Color, m: Machine, actions: seq<Action>): Machine
    requires Runs(scaling, m, actions)
    decreases |actions|, 1
  {
    if actions == [] then m else Perform(scaling, After(scaling, m, actions[..|actions| - 1]), actions[|actions| - 1])
  }

  /** The colour last asked of a channel, which was white at first, and the brightness last asked of any. */
  function LastColor(actions: seq<Action>, channel: nat): Color {
    if actions == [] then Color(0xff, 0xff, 0xff)
    else
      var a := actions[|actions| - 1];
      if a.SetLed? && a.channel == channel then a.intensity else LastColor(actions[..|actions| - 1], channel)
  }

  function LastBrightness(actions: seq<Action>): u8 {
    if actions == [] then 0
    else
      var a := actions[|actions| - 1];
      if a.SetLed? then a.brightness else LastBrightness(actions[..|actions| - 1])
  }

  function BufferedAfter(actions: seq<Action>): bool {
    if actions == [] then false
    else
      var a := actions[|actions| - 1];
      if a.SetBuffer? && a.on.Some? then a.on.value else BufferedAfter(actions[..|actions| - 1])
  }

  /** An action that sends the frame. */
  predicate Flushes(front: seq<Action>, a: Action) {
    a.Resume? || (a.SetBuffer? && a.on == Some(false)) || (a.SetLed? && !BufferedAfter(front))
  }

  /** How many actions there were up to the last one that sent the frame ... */
  function LastFlush(actions: seq<Action>): (n: nat)
    ensures n <= |actions|
  {
    if actions == [] then 0
    else
      var front := actions[..|actions| - 1];
      if Flushes(front, actions[|actions| - 1]) then |actions| else LastFlush(front)
  }

  /** ... and how its transfer went; `first` is that of probe. */
  function LastTransfer(actions: seq<Action>, first: Transfer): Transfer {
    if actions == [] then first
    else
      var front, a := actions[..|actions| - 1], actions[|actions| - 1];
      if Flushes(front, a) then a.transfer else LastTransfer(front, first)
  }

  /** The picture follows the LED requests, whether or not they are sent at once. */
  lemma {:induction false} PictureFollowsRequests(
    scaling: (Color, int, int) -> Color, dev: Device, first: Transfer, actions: seq<Action>, channel: nat)
    requires Runs(scaling, Probed(scaling, dev, first), actions) && channel < NR_ROWS * LEDS_PER_ROW
    ensures var m := After(scaling, Probed(scaling, dev, first), actions);
            && m.picture.matrix[channel] ==
                 scaling(LastColor(actions, channel), channel / LEDS_PER_ROW, channel % LEDS_PER_ROW)
            && m.picture.brightness == LastBrightness(actions)
            && m.buffered == BufferedAfter(actions)
  {
    if actions != [] {
      PictureFollowsRequests(scaling, dev, first, actions[..|actions| - 1], channel);
    }
  }

  lemma {:induction false} PrefixRuns(scaling: (Color, int, int) -> Color, m: Machine, actions: seq<Action>, n: nat)
    requires n <= |actions| && Runs(scaling, m, actions)
    ensures Runs(scaling, m, actions[..n])
  {
    if n < |actions| {
      PrefixRuns(scaling, m, actions[..|actions| - 1], n);
      assert actions[..|actions| - 1][..n] == actions[..n];
    } else {
      assert actions[..n] == actions;
    }
  }

  /** The image has this picture's brightness, if the first control report arrived, and every row that was
      delivered. */
  predicate Shows(image: Image, p: Picture, t: Transfer) {
    && (t.params ==> image.lit && image.brightness == ClampedBrightness(p.brightness))
    && forall row :: 0 <= row < NR_ROWS && Delivered(t, row) ==> image.rows[row] == EncodedRow(p.matrix, row)
  }

  lemma FlushedShows(d: Device, p: Picture, t: Transfer)
    ensures Shows(Flushed(d, p, t).image, p, t)
  {
    FlushedExactly(d, p, t, 0);
    forall row | 0 <= row < NR_ROWS && Delivered(t, row)
      ensures Flushed(d, p, t).image.rows[row] == EncodedRow(p.matrix, row)
    {
      FlushedExactly(d, p, t, row);
    }
  }

  /** What an action that sends the frame, or does not, leaves on an awake keyboard. */
  lemma ActionShows(scaling: (Color, int, int) -> Color, m: Machine, front: seq<Action>, a: Action)
    requires Enabled(m, a) && m.buffered == BufferedAfter(front)
    ensures var n := Perform(scaling, m, a);
            && (Flushes(front, a) ==> Shows(n.dev.image, n.picture, a.transfer))
            && (!Flushes(front, a) && n.awake ==> m.awake && n.dev == m.dev)
            && (!Flushes(front, a) && !n.buffered ==> n.picture == m.picture && !m.buffered)
  {
    if Flushes(front, a) {
      FlushedShows(m.dev, Perform(scaling, m, a).picture, a.transfer);
    }
  }

  /** While awake the keyboard shows the picture of the last flush, in every row that it delivered; if input is
      not buffered, that picture is the present one. */
  lemma {:induction false} ShowsLastFlush(
    scaling: (Color, int, int) -> Color, dev: Device, first: Transfer, actions: seq<Action>)
    requires Runs(scaling, Probed(scaling, dev, first), actions)
    ensures Runs(scaling, Probed(scaling, dev, first), actions[..LastFlush(actions)])
    ensures var m := After(scaling, Probed(scaling, dev, first), actions);
            var flushed := After(scaling, Probed(scaling, dev, first), actions[..LastFlush(actions)]);
            && (m.awake ==> Shows(m.dev.image, flushed.picture, LastTransfer(actions, first)))
            && (!m.buffered ==> flushed.picture == m.picture)
  {
    var probed := Probed(scaling, dev, first);
    PrefixRuns(scaling, probed, actions, LastFlush(actions));
    if actions == [] {
      FlushedShows(dev, InitialPicture(scaling), first);
    } else {
      var front := actions[..|actions| - 1];
      ShowsLastFlush(scaling, dev, first, front);
      PictureFollowsRequests(scaling, dev, first, front, 0);
      ActionShows(scaling, After(scaling, probed, front), front, actions[|actions| - 1]);
      if LastFlush(actions) < |actions| {
        assert front[..LastFlush(front)] == actions[..LastFlush(actions)];
      } else {
        assert actions[..LastFlush(actions)] == actions;
      }
    }
  }

  /** An unbuffered keyboard that is awake shows every key whose row the last flush delivered in the colour
      last asked for it, scaled for its position, and shows the clamped brightness last asked for if the
      flush's first report arrived; whatever was buffered, lost or failed in between. */
  lemma UnbufferedShowsRequests(
    scaling: (Color, int, int) -> Color, dev: Device, first: Transfer, actions: seq<Action>, channel: nat)
    requires Runs(scaling, Probed(scaling, dev, first), actions) && channel < NR_ROWS * LEDS_PER_ROW
    ensures var m, t := After(scaling, Probed(scaling, dev, first), actions), LastTransfer(actions, first);
            m.awake && !BufferedAfter(actions) ==>
              && (t.params ==> m.dev.image.lit && m.dev.image.brightness == ClampedBrightness(LastBrightness(actions)))
              && (Delivered(t, channel / LEDS_PER_ROW) ==>
                    ColorOf(m.dev.image.rows, channel) ==
                      scaling(LastColor(actions, channel), channel / LEDS_PER_ROW, channel % LEDS_PER_ROW))
  {
    ShowsLastFlush(scaling, dev, first, actions);
    PictureFollowsRequests(scaling, dev, first, actions, channel);
    var m := After(scaling, Probed(scaling, dev, first), actions);
    DecodeEncoded(m.picture.matrix, channel);
    assert Encoded(m.picture.matrix)[channel / LEDS_PER_ROW] == EncodedRow(m.picture.matrix, channel / LEDS_PER_ROW);
  }

  /** After every run that ends with a suspend: if its report arrived the keyboard is dark and otherwise as
      before, if not it is as before altogether; the driver forgets nothing. */
  lemma SuspendDarkens(scaling: (Color, int, int) -> Color, m: Machine, actions: seq<Action>, arrives: bool)
    requires Runs(scaling, m, actions) && After(scaling, m, actions).awake
    ensures Runs(scaling, m, actions + [Suspend(arrives)])
    ensures var before, after := After(scaling, m, actions), After(scaling, m, actions + [Suspend(arrives)]);
            && !after.awake && after.picture == before.picture && after.buffered == before.buffered
            && after.dev.image.brightness == before.dev.image.brightness
            && after.dev.image.rows == before.dev.image.rows && after.dev.announced == before.dev.announced
            && (arrives ==> !after.dev.image.lit)
            && (!arrives ==> after.dev.image.lit == before.dev.image.lit)
  {
    assert (actions + [Suspend(arrives)])[..|actions|] == actions;
  }

  /** And every run that ends with a resume whose first report arrives leaves it lit. */
  lemma ResumeLights(scaling: (Color, int, int) -> Color, m: Machine, actions: seq<Action>, t: Transfer)
    requires Runs(scaling, m, actions) && !After(scaling, m, actions).awake
    ensures Runs(scaling, m, actions + [Resume(t)])
    ensures var before, after := After(scaling, m, actions), After(scaling, m, actions + [Resume(t)]);
            && after.awake && after.picture == before.picture && after.buffered == before.buffered
            && (t.params ==> after.dev.image.lit)
            && (!t.params ==> after.dev.image.lit == before.dev.image.lit)
  {
    assert (actions + [Resume(t)])[..|actions|] == actions;
    FlushedExactly(After(scaling, m, actions).dev, After(scaling, m, actions).picture, t, 0);
  }

  /** Switching the buffer on sends nothing, and a text that names no truth value changes nothing. */
  lemma BufferRequests(scaling: (Color, int, int) -> Color, m: Machine, on: Option<bool>, t: Transfer)
    requires m.awake
    ensures var n := Perform(scaling, m, SetBuffer(on, t));
            && n.picture == m.picture && n.awake
            && (on.None? ==> n == m)
            && (on == Some(true) ==> n.buffered && n.dev == m.dev)
            && (on == Some(false) ==> !n.buffered && n.dev == Flushed(m.dev, m.picture, t))
  {
  }

  /** Probe: every key white at full intensity, in its scaled colour, at brightness 0 and not buffered. */
  lemma ProbeIsWhite(scaling: (Color, int, int) -> Color, dev: Device, t: Transfer, row: nat, column: nat)
    requires row < 6 && column < 21
    ensures var m := Probed(scaling, dev, t);
            && m.picture.matrix[21 * row + column] == scaling(Color(255, 255, 255), row, column)
            && m.picture.brightness == 0 && !m.buffered && m.awake
            && (t.params ==> m.dev.image.lit && m.dev.image.brightness == 0)
  {
    assert Channel(row, column) == 21 * row + column;
    FlushedExactly(dev, InitialPicture(scaling), t, 0);
  }
}
