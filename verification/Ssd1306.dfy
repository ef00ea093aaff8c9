/** The driver: a bit buffer of 8 pages, line and text drawing, and the transfer to the panel. */
module Ssd1306 {
  import opened Bitwise
  import opened LineGeometry
  import opened Panel

  /** One column byte per glyph column. */
  type Font = f: seq<seq<byte>> | |f| == 128 && forall i :: 0 <= i < 128 ==> |f[i]| == 8
    witness seq(128, _ => seq(8, _ => 0))

  predicate OnScreen(p: Point) { 0 <= p.x < 128 && 0 <= p.y < 64 }

  /**
   The 128 columns of a page are followed by 8 bytes that nothing reads: two unused
   fields in front of the next page, and behind the last page two handles that are
   read only while the bus is set up. A stroke may run that far.
   */
  const STRIDE := 136

  predicate Drawable(p: Point) { 0 <= p.x < STRIDE && 0 <= p.y < 64 }
  predicate LineDrawable(l: Line) { Drawable(Start(l)) && Drawable(End(l)) }

  /** The pixels in columns that the panel has. */
  function Seen(pixels: set<Point>): set<Point> { set p | p in pixels && p.x < 128 }

  /** Pixels added, or removed when inverting. */
  function Painted(picture: set<Point>, pixels: set<Point>, invert: bool): set<Point> {
    if invert then picture - pixels else picture + pixels
  }

  /** The pixels of a line in columns that the panel has. */
  ghost function Shape(l: Line): set<Point> { Seen(LinePixels(l)) }

  lemma PaintedTwice(picture: set<Point>, a: set<Point>, b: set<Point>, invert: bool)
    ensures Painted(Painted(picture, a, invert), b, invert) == Painted(picture, a + b, invert)
  {
  }

  class Bus {
    var controller: Controller

    constructor (controller: Controller)
      ensures this.controller == controller
    {
      this.controller := controller;
    }

    method Transmit(buf: array<byte>, length: nat)
      requires length <= buf.Length
      modifies this
      ensures controller == Receive(old(controller), buf[..length])
    {
      controller := Receive(controller, buf[..length]);
    }
  }

  class Device {
    const pages: array2<byte>
    /** The lit pixels. */
    ghost var picture: set<Point>

    constructor ()
      ensures fresh(pages) && Valid() && picture == {}
      ensures forall p, c :: 0 <= p < 8 && 0 <= c < 128 ==> pages[p, c] == 0
    {
      pages := new byte[8, STRIDE]((_, _) => 0);
      picture := {};
      new;
      forall p | OnScreen(p) ensures !Lit(p) {
        ZeroBits(p.y % 8);
      }
    }

    ghost predicate Shaped() { pages.Length0 == 8 && pages.Length1 == STRIDE }

    ghost predicate Valid()
      reads this, pages
    {
      && Shaped()
      && (forall p {:trigger Lit(p)} :: OnScreen(p) ==> (Lit(p) <==> p in picture))
      && (forall p {:trigger OnScreen(p)} :: p in picture ==> OnScreen(p))
    }

    ghost function Row(page: nat): (r: seq<byte>)
      requires Shaped() && page < 8
      reads pages
      ensures |r| == 128 && forall c :: 0 <= c < 128 ==> r[c] == pages[page, c]
    {
      seq(128, c requires 0 <= c < 128 reads pages => pages[page, c])
    }

    ghost predicate Lit(p: Point)
      requires Shaped() && OnScreen(p)
      reads pages
    {
      TestBit(pages[p.y / 8, p.x], p.y % 8)
    }

    /** Every page of the display memory equals the buffer. */
    ghost predicate ShownOn(ram: Ram)
      requires Shaped()
      reads pages
    {
      forall p :: 0 <= p < 8 ==> ram[p] == Row(p)
    }

    /** Reads the lit pixels off the bits. */
    ghost method Observe()
      requires Shaped()
      modifies this`picture
      ensures Valid()
    {
      picture := set x, y | 0 <= x < 128 && 0 <= y < 64 && Lit(Point(x, y)) :: Point(x, y);
    }

    method Clear()
      requires Shaped()
      modifies this, pages
      ensures Valid() && picture == {}
    {
      forall p, c | 0 <= p < 8 && 0 <= c < 128 {
        pages[p, c] := 0;
      }
      picture := {};
      forall p | OnScreen(p) ensures !Lit(p) {
        ZeroBits(p.y % 8);
      }
    }

    /** The struct is copied by value. */
    method CopyFrom(other: Device)
      requires Shaped() && other.Valid()
      modifies this, pages
      ensures Valid() && picture == old(other.picture)
      ensures forall p, c :: 0 <= p < 8 && 0 <= c < STRIDE ==> pages[p, c] == old(other.pages[p, c])
    {
      picture := other.picture;
      forall p, c | 0 <= p < 8 && 0 <= c < STRIDE {
        pages[p, c] := other.pages[p, c];
      }
      assert forall p {:trigger Lit(p)} :: OnScreen(p) ==> Lit(p) == old(other.Lit(p));
    }

    method Pixel(xpos: int, ypos: int, invert: bool)
      requires Valid() && Drawable(Point(xpos, ypos))
      modifies this, pages
      ensures Valid() && picture == Painted(old(picture), Seen({Point(xpos, ypos)}), invert)
    {
      var page := ypos / 8;
      var bits := ypos % 8;
      var seg := xpos;
      var wk0: byte := pages[page, seg];
      var wk1: byte := Mask(bits);
      ghost var before := wk0;
      if invert {
        wk0 := AndNot(wk0, wk1);
      } else {
        wk0 := OrByte(wk0, wk1);
      }
      pages[page, seg] := wk0;
      picture := Painted(picture, Seen({Point(xpos, ypos)}), invert);
      forall k | 0 <= k < 8 ensures TestBit(wk0, k) == if k == bits then !invert else TestBit(before, k) {
        OrBits(before, wk1, k);
        AndNotBits(before, wk1, k);
        Pow2Bits(bits, k);
      }
      forall p | OnScreen(p) ensures Lit(p) == if p == Point(xpos, ypos) then !invert else old(Lit(p)) {
        assert p.y == p.y / 8 * 8 + p.y % 8;
      }
    }

    /** Sets the pixel of step k of a line whose earlier pixels are drawn. */
    method Plot(ghost l: Line, ghost k: nat, ghost j: int, ghost e: int, ghost before: set<Point>,
                x1: int, y1: int, invert: bool)
      requires Valid() && LineDrawable(l) && k <= Major(l) && Tracks(l, k, j, Point(x1, y1), e)
      requires picture == Painted(before, Seen(FirstPixels(l, k)), invert)
      modifies this, pages
      ensures Valid() && picture == Painted(before, Seen(FirstPixels(l, k + 1)), invert)
    {
      PlotStep(l, k, j, Point(x1, y1), e, before, invert);
      Pixel(x1, y1, invert);
    }

    /** One turn of the loop: a pixel, and the step to the next. */
    method PlotFlat(ghost l: Line, ghost k: int, ghost j: int, ghost before: set<Point>, x1: int, y1: int, e: int,
                 sx: int, sy: int, dx: int, dy: int, invert: bool)
      returns (x1': int, y1': int, e': int, ghost j': int)
      requires Valid() && LineDrawable(l) && Flat(l) && dx == Dx(l) && dy == Dy(l)
      requires sx == (if l.x2 > l.x1 then 1 else -1) && sy == (if l.y2 > l.y1 then 1 else -1)
      requires 0 <= k <= dx && Tracks(l, k, j, Point(x1, y1), e)
      requires picture == Painted(before, Seen(FirstPixels(l, k)), invert)
      modifies this, pages
      ensures Valid() && picture == Painted(before, Seen(FirstPixels(l, k + 1)), invert)
      ensures k < dx ==> Tracks(l, k + 1, j', Point(x1', y1'), e')
    {
      Plot(l, k, j, e, before, x1, y1, invert);
      x1', y1', e', j' := FlatStep(l, k, j, x1, y1, e, sx, sy, dx, dy);
    }

    /** The loop for inclination below one: x advances every step */
    method DrawFlat(l: Line, invert: bool)
      requires Valid() && LineDrawable(l) && Flat(l)
      modifies this, pages
      ensures Valid() && picture == Painted(old(picture), Shape(l), invert)
    {
      var x1, y1 := l.x1, l.y1;
      var dx: int, dy: int := Dx(l), Dy(l);
      var sx := if l.x2 > l.x1 then 1 else -1;
      var sy := if l.y2 > l.y1 then 1 else -1;
      var e := -dx;
      ghost var j := 0;
      NothingDrawn(l, picture, invert);
      for i := 0 to dx + 1
        invariant i <= dx ==> Tracks(l, i, j, Point(x1, y1), e)
        invariant Valid() && picture == Painted(old(picture), Seen(FirstPixels(l, i)), invert)
      {
        x1, y1, e, j := PlotFlat(l, i, j, old(picture), x1, y1, e, sx, sy, dx, dy, invert);
      }
    }

    /** One turn of the loop: a pixel, and the step to the next. */
    method PlotSteep(ghost l: Line, ghost k: int, ghost j: int, ghost before: set<Point>, x1: int, y1: int, e: int,
                 sx: int, sy: int, dx: int, dy: int, invert: bool)
      returns (x1': int, y1': int, e': int, ghost j': int)
      requires Valid() && LineDrawable(l) && !Flat(l) && dx == Dx(l) && dy == Dy(l)
      requires sx == (if l.x2 > l.x1 then 1 else -1) && sy == (if l.y2 > l.y1 then 1 else -1)
      requires 0 <= k <= dy && Tracks(l, k, j, Point(x1, y1), e)
      requires picture == Painted(before, Seen(FirstPixels(l, k)), invert)
      modifies this, pages
      ensures Valid() && picture == Painted(before, Seen(FirstPixels(l, k + 1)), invert)
      ensures k < dy ==> Tracks(l, k + 1, j', Point(x1', y1'), e')
    {
      Plot(l, k, j, e, before, x1, y1, invert);
      x1', y1', e', j' := SteepStep(l, k, j, x1, y1, e, sx, sy, dx, dy);
    }

    /** The loop for inclination of one and more: y advances every step */
    method DrawSteep(l: Line, invert: bool)
      requires Valid() && LineDrawable(l) && !Flat(l)
      modifies this, pages
      ensures Valid() && picture == Painted(old(picture), Shape(l), invert)
    {
      var x1, y1 := l.x1, l.y1;
      var dx: int, dy: int := Dx(l), Dy(l);
      var sx := if l.x2 > l.x1 then 1 else -1;
      var sy := if l.y2 > l.y1 then 1 else -1;
      var e := -dy;
      ghost var j := 0;
      NothingDrawn(l, picture, invert);
      for i := 0 to dy + 1
        invariant i <= dy ==> Tracks(l, i, j, Point(x1, y1), e)
        invariant Valid() && picture == Painted(old(picture), Seen(FirstPixels(l, i)), invert)
      {
        x1, y1, e, j := PlotSteep(l, i, j, old(picture), x1, y1, e, sx, sy, dx, dy, invert);
      }
    }

    /** Sets (or clears) exactly the pixels of the line. */
    method DrawLine(l: Line, invert: bool)
      requires Valid() && LineDrawable(l)
      modifies this, pages
      ensures Valid() && picture == Painted(old(picture), Shape(l), invert)
    {
      if Dx(l) > Dy(l) {
        DrawFlat(l, invert);
      } else {
        DrawSteep(l, invert);
      }
    }
  }

  /** One step of x, and of y when the error term carries. */
  method FlatStep(ghost l: Line, ghost k: int, ghost j: int, x1: int, y1: int, e: int,
                  sx: int, sy: int, dx: int, dy: int)
    returns (x1': int, y1': int, e': int, ghost j': int)
    requires Flat(l) && dx == Dx(l) && dy == Dy(l)
    requires sx == (if l.x2 > l.x1 then 1 else -1) && sy == (if l.y2 > l.y1 then 1 else -1)
    requires 0 <= k <= dx && Tracks(l, k, j, Point(x1, y1), e)
    ensures k < dx ==> Tracks(l, k + 1, j', Point(x1', y1'), e')
  {
    x1', y1', e', j' := x1 + sx, y1, e + 2 * dy, j;
    if e' >= 0 {
      y1' := y1' + sy;
      e' := e' - 2 * dx;
      j' := j + 1;
    }
    if k < dx { TracksNext(l, k, j, Point(x1, y1), e, j', Point(x1', y1'), e'); }
  }

  /** One step of y, and of x when the error term carries. */
  method SteepStep(ghost l: Line, ghost k: int, ghost j: int, x1: int, y1: int, e: int,
                   sx: int, sy: int, dx: int, dy: int)
    returns (x1': int, y1': int, e': int, ghost j': int)
    requires !Flat(l) && dx == Dx(l) && dy == Dy(l)
    requires sx == (if l.x2 > l.x1 then 1 else -1) && sy == (if l.y2 > l.y1 then 1 else -1)
    requires 0 <= k <= dy && Tracks(l, k, j, Point(x1, y1), e)
    ensures k < dy ==> Tracks(l, k + 1, j', Point(x1', y1'), e')
  {
    x1', y1', e', j' := x1, y1 + sy, e + 2 * dx, j;
    if e' >= 0 {
      x1' := x1' + sx;
      e' := e' - 2 * dy;
      j' := j + 1;
    }
    if k < dy { TracksNext(l, k, j, Point(x1, y1), e, j', Point(x1', y1'), e'); }
  }

  /** After k steps, j of them with a minor step, p is the pixel nearest to the line and e the error term. */
  ghost predicate Tracks(l: Line, k: int, j: int, p: Point, e: int) {
    && p == PointAt(l, k, j)
    && e == Deviation(Major(l), Minor(l), k, j) - Major(l)
    && Nearest(Major(l), Minor(l), k, j)
  }

  lemma NothingDrawn(l: Line, picture: set<Point>, invert: bool)
    ensures Painted(picture, Seen(FirstPixels(l, 0)), invert) == picture
    ensures Tracks(l, 0, 0, Start(l), 0 - Major(l))
  {
    assert FirstPixels(l, 0) == {} && Seen({}) == {};
    EndDeviation(Major(l), Minor(l));
  }

  /** The pixel drawn in step k is the line's pixel of that step, and has a byte. */
  lemma PlotStep(l: Line, k: int, j: int, p: Point, e: int, picture: set<Point>, invert: bool)
    requires LineDrawable(l) && 0 <= k <= Major(l) && Tracks(l, k, j, p, e)
    ensures Drawable(p)
    ensures Painted(Painted(picture, Seen(FirstPixels(l, k)), invert), Seen({p}), invert)
         == Painted(picture, Seen(FirstPixels(l, k + 1)), invert)
  {
    InBoundingBox(l, p);
    StepIsUnique(l, p);
    var drawn := FirstPixels(l, k);
    assert Seen(drawn) + Seen({p}) == Seen(drawn + {p});
    PaintedTwice(picture, Seen(drawn), Seen({p}), invert);
  }

  /** Adding to the error term, and carrying from it, moves on to the next pixel. */
  lemma TracksNext(l: Line, k: int, j: int, p: Point, e: int, j': int, p': Point, e': int)
    requires 0 <= k < Major(l) && Tracks(l, k, j, p, e)
    requires e + 2 * Minor(l) < 0 ==> j' == j && e' == e + 2 * Minor(l)
    requires e + 2 * Minor(l) >= 0 ==> j' == j + 1 && e' == e + 2 * Minor(l) - 2 * Major(l)
    requires p'.x == p.x + (if Flat(l) || j' > j then Toward(l.x1, l.x2, 1) else 0)
    requires p'.y == p.y + (if !Flat(l) || j' > j then Toward(l.y1, l.y2, 1) else 0)
    ensures Tracks(l, k + 1, j', p', e')
  {
    TimesMonotone(Minor(l), k, k);
    TimesMonotone(Major(l), j, j);
  }

  // ------------------------------------------------------------ panel transfer

  method DisplayImageI2c(bus: Bus, page: nat, seg: nat, images: seq<byte>)
    requires bus.controller.Ready() && seg + |images| <= 128
    modifies bus
    ensures page >= 8 || seg >= 128 ==> bus.controller == old(bus.controller)
    ensures page < 8 && seg < 128 ==>
      bus.controller.ram == old(bus.controller.ram)[page := Patch(old(bus.controller.ram)[page], seg, images)]
    ensures bus.controller.Ready()
  {
    if page >= 8 { return; }
    if seg >= 128 { return; }
    var width := |images|;
    var outBuf := new byte[if width < 4 then 4 else width + 1];
    SendAddress(bus, outBuf, page, seg);
    SendData(bus, outBuf, images);
  }

  /** The three addressing commands, through the front of the transfer buffer. */
  method SendAddress(bus: Bus, outBuf: array<byte>, page: nat, seg: nat)
    requires bus.controller.Ready() && page < 8 && seg < 128 && outBuf.Length >= 4
    modifies bus, outBuf
    ensures bus.controller == old(bus.controller).(page := page, column := seg)
  {
    var columLow := seg % 16;
    var columHigh := seg / 16 % 16;
    var outIndex := 0;
    outBuf[outIndex] := CMD_STREAM; outIndex := outIndex + 1;
    outBuf[outIndex] := 0x00 + columLow; outIndex := outIndex + 1;
    outBuf[outIndex] := 0x10 + columHigh; outIndex := outIndex + 1;
    PageCommand(page);
    outBuf[outIndex] := OrByte(0xB0, page); outIndex := outIndex + 1;
    assert outBuf[..outIndex][1..] == [seg % 16, 0x10 + seg / 16, 0xB0 + page];
    AddressingSetsPointers(bus.controller, page, seg);
    bus.Transmit(outBuf, outIndex);
  }

  /** The data burst. */
  method SendData(bus: Bus, outBuf: array<byte>, images: seq<byte>)
    requires bus.controller.Ready() && bus.controller.column + |images| <= 128 && outBuf.Length >= |images| + 1
    modifies bus, outBuf
    ensures bus.controller.Ready()
    ensures var c := old(bus.controller); bus.controller.ram == c.ram[c.page := Patch(c.ram[c.page], c.column, images)]
  {
    outBuf[0] := DATA_STREAM;
    forall i | 0 <= i < |images| {
      outBuf[i + 1] := images[i];
    }
    assert outBuf[..|images| + 1][1..] == images;
    BurstPatches(bus.controller, images);
    bus.Transmit(outBuf, |images| + 1);
  }

  lemma PageCommand(page: nat)
    requires page < 8
    ensures Or(0xB0, page) == 0xB0 + page
  {
    assert Pow2(4) == 16;
    OrDisjoint(11, page, 4);
  }

  method ShowBuffer(dev: Device, bus: Bus)
    requires dev.Shaped() && bus.controller.Ready()
    modifies bus
    ensures bus.controller.Ready() && dev.ShownOn(bus.controller.ram)
  {
    for page := 0 to 8
      invariant bus.controller.Ready()
      invariant forall p :: 0 <= p < page ==> bus.controller.ram[p] == dev.Row(p)
    {
      var image := seq(128, c requires 0 <= c < 128 reads dev.pages => dev.pages[page, c]);
      DisplayImageI2c(bus, page, 0, image);
      assert Patch(old(bus.controller.ram)[page], 0, image) == dev.Row(page);
    }
  }

  /** Writes the image to the panel and to the buffer. */
  method DisplayImage(dev: Device, bus: Bus, page: nat, seg: nat, images: seq<byte>)
    requires dev.Valid() && bus.controller.Ready() && page < 8 && seg < 128 && seg + |images| <= 128
    modifies dev, dev.pages, bus
    ensures bus.controller.Ready() && dev.Valid()
    ensures forall p: Point :: p.y / 8 != page ==> (p in dev.picture <==> p in old(dev.picture))
    ensures bus.controller.ram == old(bus.controller.ram)[page := Patch(old(bus.controller.ram)[page], seg, images)]
    ensures forall p :: 0 <= p < 8 ==>
      dev.Row(p) == if p == page then Patch(old(dev.Row(p)), seg, images) else old(dev.Row(p))
  {
    DisplayImageI2c(bus, page, seg, images);
    forall i | 0 <= i < |images| {
      dev.pages[page, seg + i] := images[i];
    }
    dev.Observe();
    forall p | OnScreen(p) && p.y / 8 != page ensures p in dev.picture <==> p in old(dev.picture) {
      assert dev.Lit(p) == old(dev.Lit(p));
    }
  }

  /** Glyph columns of a text, at most 16 characters. */
  function TextColumns(font: Font, text: seq<nat>, invert: bool): (r: seq<byte>)
    requires forall i :: 0 <= i < |text| ==> text[i] < 128
    ensures |r| == 8 * |text|
  {
    if text == [] then []
    else
      var last := |text| - 1;
      TextColumns(font, text[..last], invert) + GlyphColumns(font, text[last], invert)
  }

  function GlyphColumns(font: Font, ch: nat, invert: bool): (r: seq<byte>)
    requires ch < 128
    ensures |r| == 8
  {
    if invert then seq(8, i requires 0 <= i < 8 => 255 - font[ch][i]) else font[ch]
  }

  lemma PatchAppends(row: seq<byte>, a: seq<byte>, b: seq<byte>)
    requires |a| + |b| <= |row|
    ensures Patch(Patch(row, 0, a), |a|, b) == Patch(row, 0, a + b)
  {
  }

  /** A line holds 16 characters. */
  function Fitting(text: seq<nat>): (r: seq<nat>)
    ensures r <= text && |r| <= 16 && (|r| == 16 || r == text)
  {
    if |text| > 16 then text[..16] else text
  }

  method DisplayText(dev: Device, bus: Bus, font: Font, page: nat, text: seq<nat>, invert: bool)
    requires dev.Valid() && bus.controller.Ready()
    requires forall i :: 0 <= i < |text| ==> text[i] < 128
    modifies dev, dev.pages, bus
    ensures bus.controller.Ready() && dev.Valid()
    ensures forall p: Point :: p.y / 8 != page ==> (p in dev.picture <==> p in old(dev.picture))
    ensures page < 8 ==>
      && bus.controller.ram
         == old(bus.controller.ram)[page := TextRow(font, Fitting(text), invert, old(bus.controller.ram)[page])]
      && dev.Row(page) == TextRow(font, Fitting(text), invert, old(dev.Row(page)))
    ensures page >= 8 ==> bus.controller.ram == old(bus.controller.ram)
    ensures forall p :: 0 <= p < 8 && p != page ==> dev.Row(p) == old(dev.Row(p))
  {
    if page >= 8 { return; }
    var textLen := |text|;
    if textLen > 16 { textLen := 16; }
    assert text[..textLen] == Fitting(text);
    DisplayGlyphs(dev, bus, font, page, text[..textLen], invert);
  }

  /** The glyphs of a text that fits the page, from the left. */
  method DisplayGlyphs(dev: Device, bus: Bus, font: Font, page: nat, text: seq<nat>, invert: bool)
    requires dev.Valid() && bus.controller.Ready() && page < 8 && |text| <= 16
    requires forall i :: 0 <= i < |text| ==> text[i] < 128
    modifies dev, dev.pages, bus
    ensures bus.controller.Ready() && dev.Valid()
    ensures forall p: Point :: p.y / 8 != page ==> (p in dev.picture <==> p in old(dev.picture))
    ensures bus.controller.ram
         == old(bus.controller.ram)[page := TextRow(font, text, invert, old(bus.controller.ram)[page])]
    ensures dev.Row(page) == TextRow(font, text, invert, old(dev.Row(page)))
    ensures forall p :: 0 <= p < 8 && p != page ==> dev.Row(p) == old(dev.Row(p))
  {
    var seg := 0;
    ghost var row, ram := dev.Row(page), bus.controller.ram;
    TextStarts(font, text, invert, row);
    TextStarts(font, text, invert, ram[page]);
    for i := 0 to |text|
      invariant seg == 8 * i && bus.controller.Ready() && dev.Valid()
      invariant forall p: Point :: p.y / 8 != page ==> (p in dev.picture <==> p in old(dev.picture))
      invariant bus.controller.ram == ram[page := TextRow(font, text[..i], invert, ram[page])]
      invariant dev.Row(page) == TextRow(font, text[..i], invert, row)
      invariant forall p :: 0 <= p < 8 && p != page ==> dev.Row(p) == old(dev.Row(p))
    {
      DisplayGlyph(dev, bus, font, page, seg, text, i, invert, row, ram);
      seg := seg + 8;
    }
  }

  /** One more glyph, behind those already there. */
  method DisplayGlyph(dev: Device, bus: Bus, font: Font, page: nat, seg: nat, text: seq<nat>, i: nat,
                      invert: bool, ghost row: seq<byte>, ghost ram: Ram)
    requires dev.Valid() && bus.controller.Ready() && page < 8
    requires i < |text| && seg == 8 * i && seg + 8 <= 128 == |row|
    requires forall k :: 0 <= k < |text| ==> text[k] < 128
    requires bus.controller.ram == ram[page := TextRow(font, text[..i], invert, ram[page])]
    requires dev.Row(page) == TextRow(font, text[..i], invert, row)
    modifies dev, dev.pages, bus
    ensures bus.controller.Ready() && dev.Valid()
    ensures forall p: Point :: p.y / 8 != page ==> (p in dev.picture <==> p in old(dev.picture))
    ensures bus.controller.ram == ram[page := TextRow(font, text[..i + 1], invert, ram[page])]
    ensures dev.Row(page) == TextRow(font, text[..i + 1], invert, row)
    ensures forall p :: 0 <= p < 8 && p != page ==> dev.Row(p) == old(dev.Row(p))
  {
    var image: seq<byte> := font[text[i]];
    if invert { image := seq(8, k requires 0 <= k < 8 => 255 - font[text[i]][k]); }
    NextGlyph(font, text, i, invert, row, image);
    NextGlyph(font, text, i, invert, ram[page], image);
    DisplayImage(dev, bus, page, seg, image);
  }

  /** A page row overwritten from the left by a text. */
  function TextRow(font: Font, text: seq<nat>, invert: bool, row: seq<byte>): (r: seq<byte>)
    requires (forall i :: 0 <= i < |text| ==> text[i] < 128) && 8 * |text| <= |row|
    ensures |r| == |row|
  {
    Patch(row, 0, TextColumns(font, text, invert))
  }

  /** Column c shows column c % 8 of the glyph of character c / 8; behind the text the page is as before. */
  lemma TextRowAt(font: Font, text: seq<nat>, invert: bool, row: seq<byte>, c: nat)
    requires (forall i :: 0 <= i < |text| ==> text[i] < 128) && 8 * |text| <= |row| && c < |row|
    ensures TextRow(font, text, invert, row)[c]
         == if c >= 8 * |text| then row[c]
            else if invert then 255 - font[text[c / 8]][c % 8] else font[text[c / 8]][c % 8]
  {
    if c < 8 * |text| {
      TextColumnAt(font, text, invert, c);
    }
  }

  lemma {:induction false} TextColumnAt(font: Font, text: seq<nat>, invert: bool, c: nat)
    requires (forall i :: 0 <= i < |text| ==> text[i] < 128) && c < 8 * |text|
    ensures TextColumns(font, text, invert)[c]
         == if invert then 255 - font[text[c / 8]][c % 8] else font[text[c / 8]][c % 8]
  {
    var last := |text| - 1;
    if c < 8 * last {
      TextColumnAt(font, text[..last], invert, c);
    } else {
      assert c / 8 == last && c % 8 == c - 8 * last;
    }
  }

  lemma TextStarts(font: Font, text: seq<nat>, invert: bool, row: seq<byte>)
    requires forall i :: 0 <= i < |text| ==> text[i] < 128
    ensures TextRow(font, text[..0], invert, row) == row
    ensures text[..|text|] == text
  {
  }

  lemma NextGlyph(font: Font, text: seq<nat>, i: nat, invert: bool, row: seq<byte>, image: seq<byte>)
    requires forall i :: 0 <= i < |text| ==> text[i] < 128
    requires i < |text| && 8 * (i + 1) <= |row| && image == GlyphColumns(font, text[i], invert)
    ensures Patch(TextRow(font, text[..i], invert, row), 8 * i, image) == TextRow(font, text[..i + 1], invert, row)
  {
    assert text[..i + 1][..i] == text[..i];
    PatchAppends(row, TextColumns(font, text[..i], invert), image);
  }

  // ------------------------------------------------------------ initialization

  const MULTIPLEX: seq<byte> := [0xAE, 0xA8, 0x3F, 0xD3, 0x00]
  const SCAN: seq<byte> := [0x40, 0xA1, 0xC8, 0xD5, 0x80]
  const CONTRAST: seq<byte> := [0xDA, 0x12, 0x81, 0xFF, 0xA4]
  const PAGE_MODE_SELECT: seq<byte> := [0xDB, 0x40, 0x20, 0x02]
  const COLUMN_ZERO: seq<byte> := [0x00, 0x10]
  const SWITCH_ON: seq<byte> := [0x8D, 0x14, 0x2E, 0xA6, 0xAF]
  /** The command stream for a height of 64. */
  const INIT_STREAM := MULTIPLEX + SCAN + CONTRAST + PAGE_MODE_SELECT + COLUMN_ZERO + SWITCH_ON

  /** Commands that only set display parameters: between commands, same memory, pointers and mode. */
  ghost predicate OnlyParameters(c: Controller, c': Controller) {
    c'.operands == 0 && c' == c.(command := c'.command, operands := 0)
  }

  lemma MultiplexKeeps(c: Controller)
    requires c.operands == 0
    ensures OnlyParameters(c, Commands(c, MULTIPLEX))
  {
    var s := MULTIPLEX;
    assert s[0..] == s && s[5..] == [];
    ReadOpcode(c, s, 0);
    ReadSetting(c.(command := s[0]), s, 1);
    ReadSetting(c.(command := s[1]), s, 3);
  }

  lemma ScanKeeps(c: Controller)
    requires c.operands == 0
    ensures OnlyParameters(c, Commands(c, SCAN))
  {
    var s := SCAN;
    assert s[0..] == s && s[5..] == [];
    ReadOpcode(c, s, 0);
    ReadOpcode(c.(command := s[0]), s, 1);
    ReadOpcode(c.(command := s[1]), s, 2);
    ReadSetting(c.(command := s[2]), s, 3);
  }

  lemma ContrastKeeps(c: Controller)
    requires c.operands == 0
    ensures OnlyParameters(c, Commands(c, CONTRAST))
  {
    var s := CONTRAST;
    assert s[0..] == s && s[5..] == [];
    ReadSetting(c, s, 0);
    ReadSetting(c.(command := s[0]), s, 2);
    ReadOpcode(c.(command := s[2]), s, 4);
  }

  lemma SwitchOnKeeps(c: Controller)
    requires c.operands == 0
    ensures OnlyParameters(c, Commands(c, SWITCH_ON))
  {
    var s := SWITCH_ON;
    assert s[0..] == s && s[5..] == [];
    ReadSetting(c, s, 0);
    ReadOpcode(c.(command := s[0]), s, 2);
    ReadOpcode(c.(command := s[2]), s, 3);
    ReadOpcode(c.(command := s[3]), s, 4);
  }

  lemma PageModeSelected(c: Controller)
    requires c.operands == 0
    ensures OnlyParameters(c.(mode := PAGE_MODE), Commands(c, PAGE_MODE_SELECT))
  {
    var s := PAGE_MODE_SELECT;
    assert s[0..] == s && s[4..] == [];
    ReadSetting(c, s, 0);
    ReadSetting(c.(command := s[0]), s, 2);
  }

  lemma ColumnZeroed(c: Controller)
    requires c.operands == 0
    ensures Commands(c, COLUMN_ZERO) == c.(column := 0)
  {
    LowThenHigh(c, 0);
    TwoCommands(c, 0x00, 0x10);
  }

  /** The initialization leaves any idle controller in page mode at column 0, its memory untouched. */
  lemma InitSelectsPageMode(c: Controller)
    requires c.operands == 0
    ensures var c' := Commands(c, INIT_STREAM); c'.Ready() && c'.ram == c.ram && c'.page == c.page && c'.column == 0
  {
    var c1, s1 := Commands(c, MULTIPLEX), MULTIPLEX + SCAN;
    MultiplexKeeps(c);
    CommandsConcat(c, MULTIPLEX, SCAN);
    ScanKeeps(c1);
    var c2, s2 := Commands(c, s1), s1 + CONTRAST;
    CommandsConcat(c, s1, CONTRAST);
    ContrastKeeps(c2);
    var c3, s3 := Commands(c, s2), s2 + PAGE_MODE_SELECT;
    CommandsConcat(c, s2, PAGE_MODE_SELECT);
    PageModeSelected(c3);
    var c4, s4 := Commands(c, s3), s3 + COLUMN_ZERO;
    CommandsConcat(c, s3, COLUMN_ZERO);
    ColumnZeroed(c4);
    CommandsConcat(c, s4, SWITCH_ON);
    SwitchOnKeeps(Commands(c, s4));
  }

  method SendCommands(bus: Bus, commands: seq<byte>)
    modifies bus
    ensures bus.controller == Commands(old(bus.controller), commands)
  {
    var outBuf := new byte[|commands| + 1];
    outBuf[0] := CMD_STREAM;
    forall i | 0 <= i < |commands| {
      outBuf[i + 1] := commands[i];
    }
    assert outBuf[..|commands| + 1][1..] == commands;
    bus.Transmit(outBuf, |commands| + 1);
  }

  method SetContrast(bus: Bus, contrast: int)
    requires bus.controller.Ready()
    modifies bus
    ensures bus.controller.Ready() && bus.controller.ram == old(bus.controller.ram)
  {
    var value: byte := contrast % 256;
    if contrast < 0 { value := 0; }
    if contrast > 255 { value := 255; }
    ghost var c, s := bus.controller, [0x81 as byte, value];
    assert s[0..] == s && s[2..] == [];
    ReadSetting(c, s, 0);
    SendCommands(bus, [0x81, value]);
  }

  function Spaces(n: nat): seq<nat> { seq(n, _ => 0x1F) }

  function Zeros(n: nat): seq<byte> { seq(n, _ => 0) }

  /** A blank line: no pixel lit, or every pixel. */
  function Filled(n: nat, invert: bool): seq<byte> { seq(n, _ => if invert then 255 else 0) }

  /** A text of 16 characters fills the page. */
  method ClearScreen(dev: Device, bus: Bus, font: Font, invert: bool)
    requires dev.Valid() && bus.controller.Ready() && font[0x1F] == Zeros(8)
    modifies dev, dev.pages, bus
    ensures bus.controller.Ready() && dev.Valid() && dev.ShownOn(bus.controller.ram)
    ensures forall p :: 0 <= p < 8 ==> dev.Row(p) == Filled(128, invert)
    ensures forall p :: p in dev.picture <==> invert && OnScreen(p)
  {
    SpacesAreBlank(font, 16, invert);
    for page := 0 to 8
      invariant bus.controller.Ready() && dev.Valid()
      invariant forall p :: 0 <= p < page ==> bus.controller.ram[p] == dev.Row(p) == Filled(128, invert)
    {
      ghost var row, ram := dev.Row(page), bus.controller.ram[page];
      DisplayText(dev, bus, font, page, Spaces(16), invert);
      assert Fitting(Spaces(16)) == Spaces(16);
      PatchWhole(row, Filled(128, invert));
      PatchWhole(ram, Filled(128, invert));
    }
    forall p ensures p in dev.picture <==> invert && OnScreen(p) {
      if OnScreen(p) {
        assert dev.Row(p.y / 8)[p.x] == if invert then 255 else 0;
        ZeroBits(p.y % 8);
        assert Pow2(4) == 16 && Pow2(8) == 256;
        FullBits(8, p.y % 8);
        assert dev.Lit(p) <==> invert;
      }
    }
  }

  lemma PatchWhole(row: seq<byte>, image: seq<byte>)
    requires |image| == |row|
    ensures Patch(row, 0, image) == image
  {
  }

  lemma {:induction false} SpacesAreBlank(font: Font, n: nat, invert: bool)
    requires font[0x1F] == Zeros(8)
    ensures TextColumns(font, Spaces(n), invert) == Filled(8 * n, invert)
  {
    if n > 0 {
      SpacesAreBlank(font, n - 1, invert);
      assert Spaces(n)[..n - 1] == Spaces(n - 1);
      assert GlyphColumns(font, 0x1F, invert) == Filled(8, invert);
    }
  }
}
