/**
  The SSD1306 OLED driver over I2C: the command encoder (the initialisation
  sequence and the single-command setters), the transport adapter (one bus
  write per command byte, one bus write for the whole framebuffer) and the
  display controller that owns the page-packed framebuffer.

  Every call of the bus primitive `i2c.writeto(addr, bytes)` is recorded as
  one `Write` appended to the field `bus`, so each method's contract states
  exactly which transactions it puts on the wire, in order.
 */
module Ssd1306 {

  /** A value that fits in one byte of a Python `bytearray`. */
  type Byte = b: int | 0 <= b < 256

  datatype Option<T> = None | Some(value: T)

  // Controller register opcodes.
  const SetContrast: Byte := 0x81
  const SetEntireOn: Byte := 0xA4
  const SetNormInv: Byte := 0xA6
  const SetDisp: Byte := 0xAE
  const SetMemAddr: Byte := 0x20
  const SetColAddr: Byte := 0x21
  const SetPageAddr: Byte := 0x22
  const SetDispStartLine: Byte := 0x40
  const SetSegRemap: Byte := 0xA0
  const SetMuxRatio: Byte := 0xA8
  const SetComOutDir: Byte := 0xC0
  const SetComPinCfg: Byte := 0xDA
  const SetDispOffset: Byte := 0xD3
  const SetClkDiv: Byte := 0xD5
  const SetPrecharge: Byte := 0xD9
  const SetVcomd: Byte := 0xDB
  const SetNop: Byte := 0xE3
  const ChargePump: Byte := 0x8D

  /** Control byte that starts a command transaction (Co = 1, D/C# = 0). */
  const CommandPrefix: Byte := 0x80
  /** Control byte that starts a data transaction (Co = 0, D/C# = 1). */
  const DataPrefix: Byte := 0x40
  /** The bus address the I2C driver uses when the caller gives none. */
  const DefaultAddress := 0x3C

  /** One atomic bus write: the target address and the bytes sent. */
  datatype Write = Write(addr: int, payload: seq<Byte>)

  /** The panel sizes the driver handles: whole pages, and every
      `dimension - 1` operand it sends fits in a byte. */
  predicate ValidGeometry(width: int, height: int)
  {
    1 <= width <= 256 && 1 <= height <= 256 && height % 8 == 0
  }

  function Zeros(n: nat): (z: seq<Byte>)
    ensures |z| == n && forall i :: 0 <= i < n ==> z[i] == 0
  {
    seq(n, _ => 0)
  }

  /** The transactions that send `cmds` as commands: one two-byte write
      `[0x80, c]` per command byte, in order. */
  function CommandFrames(addr: int, cmds: seq<Byte>): (w: seq<Write>)
    ensures |w| == |cmds|
    ensures forall i :: 0 <= i < |cmds| ==> w[i] == Write(addr, [CommandPrefix, cmds[i]])
  {
    if cmds == [] then []
    else [Write(addr, [CommandPrefix, cmds[0]])] + CommandFrames(addr, cmds[1..])
  }

  /** Sending two command lists one after the other is sending their
      concatenation. */
  lemma CommandFramesAppend(addr: int, a: seq<Byte>, b: seq<Byte>)
    ensures CommandFrames(addr, a + b) == CommandFrames(addr, a) + CommandFrames(addr, b)
  {
  }

  /** The command operands `write_cmd(cmd1, cmd2=None, cmd3=None)` sends:
      `cmd2` only when given, `cmd3` only when `cmd2` is given as well. */
  function Operands(cmd1: Byte, cmd2: Option<Byte>, cmd3: Option<Byte>): (ops: seq<Byte>)
    ensures 1 <= |ops| <= 3 && ops[0] == cmd1
    ensures |ops| == 1 <==> cmd2.None?
    ensures |ops| >= 2 ==> ops[1] == cmd2.value
    ensures |ops| == 3 <==> cmd2.Some? && cmd3.Some?
    ensures |ops| == 3 ==> ops[2] == cmd3.value
  {
    match cmd2
    case None => [cmd1]
    case Some(c2) =>
      match cmd3
      case None => [cmd1, c2]
      case Some(c3) => [cmd1, c2, c3]
  }

  /** The fixed 25-byte initialisation sequence, in the vendor-mandated order. */
  function InitSequence(width: int, height: int, externalVcc: bool): (cmds: seq<Byte>)
    requires ValidGeometry(width, height)
    ensures |cmds| == 25
  {
    [ BitOr(SetDisp, 0x00),
      SetMemAddr, 0x00,
      BitOr(SetDispStartLine, 0x00),
      BitOr(SetSegRemap, 0x01),
      SetMuxRatio, height - 1,
      BitOr(SetComOutDir, 0x08),
      SetComPinCfg, if width > height then 0x02 else 0x12,
      SetDispOffset, 0x00,
      SetClkDiv, 0x80,
      SetPrecharge, if externalVcc then 0x22 else 0xF1,
      SetVcomd, 0x20,
      ChargePump, if externalVcc then 0x10 else 0x14,
      SetContrast, 0xFF,
      SetEntireOn,
      SetNormInv,
      BitOr(SetDisp, 0x01) ]
  }

  /** Within the initialisation sequence: the display is switched off first
      and on last, the multiplex ratio is `height - 1`, and the COM-pin
      configuration is 0x02 exactly for panels wider than tall, 0x12 otherwise. */
  lemma InitSequenceOperands(width: int, height: int, externalVcc: bool)
    requires ValidGeometry(width, height)
    ensures var cmds := InitSequence(width, height, externalVcc);
      && cmds[0] == 0xAE && cmds[24] == 0xAF
      && cmds[5] == SetMuxRatio && cmds[6] == height - 1
      && cmds[8] == SetComPinCfg
      && (cmds[9] == 0x02 <==> width > height)
      && (cmds[9] == 0x12 <==> width <= height)
      && cmds[14] == SetPrecharge && cmds[15] == (if externalVcc then 0x22 else 0xF1)
      && cmds[18] == ChargePump && cmds[19] == (if externalVcc then 0x10 else 0x14)
  {
  }

  /** Toggling `external_vcc` changes only the precharge operand and the
      charge-pump operand of the initialisation sequence. */
  lemma InitSequenceVccOnly(width: int, height: int)
    requires ValidGeometry(width, height)
    ensures var ext, internal := InitSequence(width, height, true), InitSequence(width, height, false);
      forall i :: 0 <= i < 25 ==> (ext[i] != internal[i] <==> i == 15 || i == 19)
  {
  }

  /** Changing the panel size changes only the multiplex operand and the
      COM-pin operand of the initialisation sequence. */
  lemma InitSequenceGeometryOnly(w1: int, h1: int, w2: int, h2: int, externalVcc: bool)
    requires ValidGeometry(w1, h1) && ValidGeometry(w2, h2)
    ensures var s1, s2 := InitSequence(w1, h1, externalVcc), InitSequence(w2, h2, externalVcc);
      forall i :: 0 <= i < 25 && s1[i] != s2[i] ==> i == 6 || i == 9
  {
  }

  /** The transactions of one `show`: the column window 0..width-1 and the
      page window 0..pages-1 as six command writes, then the whole buffer as
      one data write. */
  function ShowWrites(addr: int, width: int, pages: int, buf: seq<Byte>): (w: seq<Write>)
    requires 1 <= width <= 256 && 1 <= pages <= 32
    ensures |w| == 7
    ensures forall i :: 0 <= i < 7 ==> w[i].addr == addr
    ensures forall i :: 0 <= i < 6 ==> |w[i].payload| == 2 && w[i].payload[0] == CommandPrefix
    ensures w[0].payload[1] == SetColAddr && w[1].payload[1] == 0 && w[2].payload[1] == width - 1
    ensures w[3].payload[1] == SetPageAddr && w[4].payload[1] == 0 && w[5].payload[1] == pages - 1
    ensures w[6].payload == [DataPrefix] + buf && |w[6].payload| == 1 + |buf|
  {
    CommandFrames(addr, [SetColAddr, 0x00, width - 1, SetPageAddr, 0x00, pages - 1])
      + [Write(addr, [DataPrefix] + buf)]
  }

  /** Everything construction puts on the bus: the initialisation sequence
      followed by one `show` of the all-zero buffer. */
  function InitLog(addr: int, width: int, height: int, externalVcc: bool): (log: seq<Write>)
    requires ValidGeometry(width, height)
    ensures |log| == 25 + 7
    ensures forall i :: 0 <= i < |log| ==> log[i].addr == addr
    ensures forall i :: 0 <= i < 31 ==> |log[i].payload| == 2 && log[i].payload[0] == CommandPrefix
    ensures forall i :: 0 <= i < 25 ==> log[i].payload[1] == InitSequence(width, height, externalVcc)[i]
    ensures log[31].payload == [DataPrefix] + Zeros((height / 8) * width)
    ensures |log[31].payload| == 1 + (height / 8) * width
  {
    CommandFrames(addr, InitSequence(width, height, externalVcc))
      + ShowWrites(addr, width, height / 8, Zeros((height / 8) * width))
  }

  /** The 128x64 panel of the application: 32 transactions, the last one the
      1025-byte data write (the prefix and 8 pages of 128 columns). */
  lemma InitLog128x64(addr: int)
    ensures |InitLog(addr, 128, 64, false)| == 32
    ensures InitLog(addr, 128, 64, false)[30] == Write(addr, [CommandPrefix, 7])
    ensures |InitLog(addr, 128, 64, false)[31].payload| == 1025
  {
  }

  /** A driver built without an address, as the application builds its
      display, sends every construction transaction to 0x3C. */
  lemma InitLogAtDefault(width: int, height: int, externalVcc: bool)
    requires ValidGeometry(width, height)
    ensures forall w :: w in InitLog(DefaultAddress, width, height, externalVcc) ==> w.addr == 0x3C
  {
  }

  /** Python's `a | b` on two byte values. */
  function BitOr(a: Byte, b: Byte): Byte
  {
    ((a as bv8) | (b as bv8)) as int
  }

  /** `SET_NORM_INV | (invert & 1)`: normal display for an even argument,
      inverted for an odd one. */
  function NormInvCommand(invert: int): (c: Byte)
    ensures c == (if invert % 2 == 0 then 0xA6 else 0xA7)
  {
    // Python's `x & 1` equals Dafny's Euclidean `x % 2`, also for negative x.
    BitOr(SetNormInv, invert % 2)
  }

  /** `SET_COM_OUT_DIR | ((rotate & 1) << 3)`: bit 3 selects the reversed
      COM scan direction. */
  function ComOutDirCommand(rotate: int): (c: Byte)
    ensures c == (if rotate % 2 == 0 then 0xC0 else 0xC8)
  {
    BitOr(SetComOutDir, (((rotate % 2) as bv8) << 3) as int)
  }

  /** `SET_SEG_REMAP | (rotate & 1)`: bit 0 selects the reversed column order. */
  function SegRemapCommand(rotate: int): (c: Byte)
    ensures c == (if rotate % 2 == 0 then 0xA0 else 0xA1)
  {
    BitOr(SetSegRemap, rotate % 2)
  }

  /** The I2C-attached SSD1306: panel geometry, the framebuffer, the two-byte
      scratch array used for command writes, and the log of bus writes. */
  class Ssd1306I2C {
    const width: int
    const height: int
    const pages: int
    const externalVcc: bool
    const addr: int
    /** Page-major framebuffer: byte `page * width + x` holds rows
        `8 * page .. 8 * page + 7` of column `x`. */
    const buffer: array<Byte>
    const temp: array<Byte>
    /** Every `i2c.writeto` so far, oldest first. */
    var bus: seq<Write>

    ghost predicate Valid()
    {
      && ValidGeometry(width, height)
      && pages == height / 8
      && buffer.Length == pages * width
      && temp.Length == 2
      && buffer != temp
    }

    /** `SSD1306_I2C(width, height, i2c, addr, external_vcc)`: allocates the
        zeroed buffer and runs `init_display`. */
    constructor (width: int, height: int, addr: int, externalVcc: bool)
      requires ValidGeometry(width, height)
      ensures Valid() && fresh(buffer) && fresh(temp)
      ensures this.width == width && this.height == height && this.addr == addr
      ensures this.externalVcc == externalVcc
      ensures pages == height / 8 && buffer.Length == pages * width
      ensures buffer[..] == Zeros(pages * width)
      ensures bus == InitLog(addr, width, height, externalVcc)
    {
      this.addr := addr;
      temp := new Byte[2](_ => 0);
      this.width := width;
      this.height := height;
      this.externalVcc := externalVcc;
      pages := height / 8;
      buffer := new Byte[(height / 8) * width](_ => 0);
      bus := [];
      new;
      assert buffer[..] == Zeros(pages * width);
      InitDisplay();
    }

    /** `write_cmd(cmd1, cmd2, cmd3)`: each operand sent goes out as its own
        `[0x80, b]` write, through the scratch array. */
    method WriteCmd(cmd1: Byte, cmd2: Option<Byte>, cmd3: Option<Byte>)
      requires Valid()
      modifies this`bus, temp
      ensures bus == old(bus) + CommandFrames(addr, Operands(cmd1, cmd2, cmd3))
      ensures var ops := Operands(cmd1, cmd2, cmd3); temp[..] == [CommandPrefix, ops[|ops| - 1]]
    {
      if cmd2.None? {
        temp[0] := CommandPrefix;
        temp[1] := cmd1;
        assert temp[..] == [CommandPrefix, cmd1];
        bus := bus + [Write(addr, temp[..])];
      } else if cmd3.None? {
        temp[0] := CommandPrefix;
        temp[1] := cmd1;
        assert temp[..] == [CommandPrefix, cmd1];
        bus := bus + [Write(addr, temp[..])];
        temp[0] := CommandPrefix;
        temp[1] := cmd2.value;
        assert temp[..] == [CommandPrefix, cmd2.value];
        bus := bus + [Write(addr, temp[..])];
      } else {
        temp[0] := CommandPrefix;
        temp[1] := cmd1;
        assert temp[..] == [CommandPrefix, cmd1];
        bus := bus + [Write(addr, temp[..])];
        temp[0] := CommandPrefix;
        temp[1] := cmd2.value;
        assert temp[..] == [CommandPrefix, cmd2.value];
        bus := bus + [Write(addr, temp[..])];
        temp[0] := CommandPrefix;
        temp[1] := cmd3.value;
        assert temp[..] == [CommandPrefix, cmd3.value];
        bus := bus + [Write(addr, temp[..])];
      }
    }

    /** `write_data(buf)`: one write of the data prefix followed by `buf`. */
    method WriteData(buf: seq<Byte>)
      modifies this`bus
      ensures bus == old(bus) + [Write(addr, [DataPrefix] + buf)]
      ensures buffer[..] == old(buffer[..])
    {
      bus := bus + [Write(addr, [DataPrefix] + buf)];
    }

    /** `init_display`: one command write per byte of the initialisation
        sequence, then `show`. */
    method InitDisplay()
      requires Valid()
      modifies this`bus, temp
      ensures bus == old(bus) + CommandFrames(addr, InitSequence(width, height, externalVcc))
                              + ShowWrites(addr, width, pages, buffer[..])
    {
      var cmds := InitSequence(width, height, externalVcc);
      for i := 0 to |cmds|
        invariant bus == old(bus) + CommandFrames(addr, cmds[..i])
      {
        WriteCmd(cmds[i], None, None);
        CommandFramesAppend(addr, cmds[..i], [cmds[i]]);
        assert cmds[..i + 1] == cmds[..i] + [cmds[i]];
      }
      assert cmds[..|cmds|] == cmds;
      Show();
    }

    method PowerOff()
      requires Valid()
      modifies this`bus, temp
      ensures bus == old(bus) + [Write(addr, [CommandPrefix, 0xAE])]
    {
      WriteCmd(BitOr(SetDisp, 0x00), None, None);
    }

    method PowerOn()
      requires Valid()
      modifies this`bus, temp
      ensures bus == old(bus) + [Write(addr, [CommandPrefix, 0xAF])]
    {
      WriteCmd(BitOr(SetDisp, 0x01), None, None);
    }

    /** `contrast(c)`: the contrast opcode, then the level as its operand. */
    method Contrast(contrast: Byte)
      requires Valid()
      modifies this`bus, temp
      ensures bus == old(bus) + [Write(addr, [CommandPrefix, SetContrast]), Write(addr, [CommandPrefix, contrast])]
    {
      WriteCmd(SetContrast, Some(contrast), None);
    }

    method Invert(invert: int)
      requires Valid()
      modifies this`bus, temp
      ensures bus == old(bus) + [Write(addr, [CommandPrefix, NormInvCommand(invert)])]
    {
      WriteCmd(NormInvCommand(invert), None, None);
    }

    /** `rotate(r)`: always both the COM scan direction and the segment remap,
        in that order, both taken from the low bit of `r`. */
    method Rotate(rotate: int)
      requires Valid()
      modifies this`bus, temp
      ensures bus == old(bus) + [Write(addr, [CommandPrefix, ComOutDirCommand(rotate)]),
                                 Write(addr, [CommandPrefix, SegRemapCommand(rotate)])]
    {
      WriteCmd(ComOutDirCommand(rotate), None, None);
      WriteCmd(SegRemapCommand(rotate), None, None);
    }

    /** `show`: the full-panel address window, then the whole buffer. */
    method Show()
      requires Valid()
      modifies this`bus, temp
      ensures bus == old(bus) + ShowWrites(addr, width, pages, buffer[..])
      ensures buffer[..] == old(buffer[..])
    {
      WriteCmd(SetColAddr, Some(0x00), Some(width - 1));
      WriteCmd(SetPageAddr, Some(0x00), Some(pages - 1));
      WriteData(buffer[..]);
      CommandFramesAppend(addr, [SetColAddr, 0x00, width - 1], [SetPageAddr, 0x00, pages - 1]);
    }

    /** `blit(fbuf, x, y, w, h)` on its fast path: a source at the origin
        with the panel's own size replaces the buffer outright and sends
        nothing on the bus. */
    method Blit(fbuf: seq<Byte>, x: int, y: int, w: int, h: int)
      requires Valid()
      requires x == 0 && y == 0 && w == width && h == height ==> |fbuf| == buffer.Length
      modifies buffer
      ensures x == 0 && y == 0 && w == width && h == height ==> buffer[..] == fbuf
      ensures bus == old(bus)
    {
      if x == 0 && y == 0 && w == width && h == height {
        forall i | 0 <= i < buffer.Length {
          buffer[i] := fbuf[i];
        }
      }
    }
  }
}
