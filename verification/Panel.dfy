/**
 The SSD1306 controller as its datasheet describes it (sections 8.1.5, 10.1.1 to
 10.1.3, 10.1.13): a display memory of 8 pages of 128 columns, written through a
 page and a column pointer. Unlike the driver, it sees only the bytes on the bus.
 */
module Panel {
  import opened Bitwise

  type Ram = r: seq<seq<byte>> | |r| == 8 && forall p :: 0 <= p < 8 ==> |r[p]| == 128
    witness seq(8, _ => seq(128, _ => 0))
  type PageIndex = p: nat | p < 8
  type Column = c: nat | c < 128

  const HORIZONTAL_MODE := 0
  const VERTICAL_MODE := 1
  const PAGE_MODE := 2

  const CMD_STREAM: byte := 0x00
  const DATA_STREAM: byte := 0x40

  /** command and operands: the multi-byte command being received, and how many of its bytes are due. */
  datatype Controller = Controller(ram: Ram, page: PageIndex, column: Column, mode: nat, command: byte, operands: nat)
  {
    /** Between commands, in page addressing mode. */
    predicate Ready() { mode == PAGE_MODE && operands == 0 }
  }

  function OperandCount(command: byte): nat {
    if command in {0x20, 0x81, 0x8D, 0xA8, 0xD3, 0xD5, 0xD9, 0xDA, 0xDB} then 1
    else if command in {0x21, 0x22, 0xA3} then 2
    else if command in {0x29, 0x2A} then 5
    else if command in {0x26, 0x27} then 6
    else 0
  }

  function CommandByte(c: Controller, b: byte): Controller {
    if c.operands > 0 then c.(operands := c.operands - 1, mode := if c.command == 0x20 then b % 4 else c.mode)
    else if b < 0x10 then c.(column := c.column / 16 * 16 + b)
    else if b < 0x20 then c.(column := (c.column % 16 + 16 * (b - 0x10)) % 128)
    else if 0xB0 <= b < 0xB8 then c.(page := b - 0xB0)
    else c.(command := b, operands := OperandCount(b))
  }

  /** row with the bytes from column on replaced by image */
  function Patch(row: seq<byte>, column: nat, image: seq<byte>): (r: seq<byte>)
    requires column + |image| <= |row|
    ensures |r| == |row|
    ensures forall k :: 0 <= k < |row| ==> r[k] == if column <= k < column + |image| then image[k - column] else row[k]
  {
    row[..column] + image + row[column + |image|..]
  }

  function DataByte(c: Controller, b: byte): Controller {
    var written := c.(ram := c.ram[c.page := Patch(c.ram[c.page], c.column, [b])]);
    if c.mode == VERTICAL_MODE then
      if c.page < 7 then written.(page := c.page + 1) else written.(page := 0, column := (c.column + 1) % 128)
    else if c.mode == HORIZONTAL_MODE && c.column == 127 then written.(column := 0, page := (c.page + 1) % 8)
    else written.(column := (c.column + 1) % 128)
  }

  function Commands(c: Controller, bytes: seq<byte>): Controller
    decreases |bytes|
  {
    if bytes == [] then c else Commands(CommandByte(c, bytes[0]), bytes[1..])
  }

  function Data(c: Controller, bytes: seq<byte>): Controller
    decreases |bytes|
  {
    if bytes == [] then c else Data(DataByte(c, bytes[0]), bytes[1..])
  }

  /** One bus transfer: the control byte says what the rest is. */
  function Receive(c: Controller, message: seq<byte>): Controller {
    if message == [] then c
    else if message[0] == CMD_STREAM then Commands(c, message[1..])
    else if message[0] == DATA_STREAM then Data(c, message[1..])
    else c
  }

  /** In page mode a burst that fits the page replaces exactly its columns. */
  lemma {:induction false} BurstPatches(c: Controller, image: seq<byte>)
    requires c.Ready() && c.column + |image| <= 128
    ensures var c' := Data(c, image);
            c'.ram == c.ram[c.page := Patch(c.ram[c.page], c.column, image)] && c'.page == c.page && c'.Ready()
    decreases |image|
  {
    if image == [] {
      assert Patch(c.ram[c.page], c.column, image) == c.ram[c.page];
    } else if |image| == 1 {
      assert image == [image[0]];
      assert Data(DataByte(c, image[0]), []) == DataByte(c, image[0]);
    } else {
      BurstPatches(DataByte(c, image[0]), image[1..]);
      PatchSplits(c.ram[c.page], c.column, image);
    }
  }

  lemma PatchSplits(row: seq<byte>, column: nat, image: seq<byte>)
    requires image != [] && column + |image| <= |row|
    ensures Patch(row, column, image) == Patch(Patch(row, column, [image[0]]), column + 1, image[1..])
  {
  }

  /** The three addressing commands put the pointers where they say, whatever they were. */
  lemma AddressingSetsPointers(c: Controller, page: PageIndex, column: Column)
    requires c.Ready()
    ensures Commands(c, [column % 16, 0x10 + column / 16, 0xB0 + page]) == c.(page := page, column := column)
  {
    LowThenHigh(c, column);
    ThreeCommands(c, column % 16, 0x10 + column / 16, 0xB0 + page);
  }

  lemma LowThenHigh(c: Controller, column: Column)
    requires c.operands == 0
    ensures CommandByte(CommandByte(c, column % 16), 0x10 + column / 16) == c.(column := column)
  {
    ColumnNibbles(c.column, column);
  }

  lemma TwoCommands(c: Controller, first: byte, second: byte)
    ensures Commands(c, [first, second]) == CommandByte(CommandByte(c, first), second)
  {
    assert [first, second][1..] == [second];
    assert Commands(CommandByte(c, first), [second]) == Commands(CommandByte(CommandByte(c, first), second), []);
  }

  lemma ThreeCommands(c: Controller, first: byte, second: byte, third: byte)
    ensures Commands(c, [first, second, third]) == CommandByte(CommandByte(CommandByte(c, first), second), third)
  {
    assert [first, second, third][1..] == [second, third] && [second, third][1..] == [third];
    assert Commands(CommandByte(c, first), [second, third])
        == Commands(CommandByte(CommandByte(c, first), second), [third]);
  }

  lemma ColumnNibbles(before: Column, column: Column)
    ensures ((before / 16 * 16 + column % 16) % 16 + 16 * (column / 16)) % 128 == column
    ensures before / 16 * 16 + column % 16 < 128
  {
  }

  lemma {:induction false} CommandsConcat(c: Controller, a: seq<byte>, b: seq<byte>)
    ensures Commands(c, a + b) == Commands(Commands(c, a), b)
    decreases |a|
  {
    if a == [] {
      assert a + b == b;
    } else {
      CommandsConcat(CommandByte(c, a[0]), a[1..], b);
      assert (a + b)[1..] == a[1..] + b;
    }
  }

  /** A command without operands, seen between commands. */
  lemma ReadOpcode(c: Controller, s: seq<byte>, k: nat)
    requires k < |s| && c.operands == 0 && s[k] >= 0x20 && !(0xB0 <= s[k] < 0xB8) && OperandCount(s[k]) == 0
    ensures Commands(c, s[k..]) == Commands(c.(command := s[k]), s[k + 1..])
  {
    assert s[k..][1..] == s[k + 1..];
  }

  /** A command and its one operand, seen between commands. */
  lemma ReadSetting(c: Controller, s: seq<byte>, k: nat)
    requires k + 1 < |s| && c.operands == 0 && OperandCount(s[k]) == 1
    ensures Commands(c, s[k..])
         == Commands(c.(command := s[k], mode := if s[k] == 0x20 then s[k + 1] % 4 else c.mode), s[k + 2..])
  {
    assert s[k..][1..] == s[k + 1..] && s[k + 1..][1..] == s[k + 2..];
    var c1 := CommandByte(c, s[k]);
    assert Commands(c, s[k..]) == Commands(c1, s[k + 1..]);
  }
}
