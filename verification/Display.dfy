/** The display of a screen: its own value copy of the buffer, over the shared bus. */
module Display {
  import opened LineGeometry
  import opened Ssd1306

  /** Character codes, all inside the font table. */
  type Text = t: seq<nat> | forall i :: 0 <= i < |t| ==> t[i] < 128

  predicate FontHolds(s: string) { forall i :: 0 <= i < |s| ==> s[i] < 128 as char }

  /** The codes of a text. */
  function Codes(s: string): (t: seq<nat>)
    requires FontHolds(s)
    ensures |t| == |s| && forall i :: 0 <= i < |t| ==> t[i] < 128
  {
    seq(|s|, i requires 0 <= i < |s| => s[i] as nat)
  }

  class Display {
    const dev: Device
    const bus: Bus
    const font: Font

    ghost predicate Valid()
      reads dev, dev.pages, bus
    {
      dev.Valid() && bus.controller.Ready()
    }

    /** The panel shows this display's buffer. */
    ghost predicate Shown()
      requires dev.Shaped()
      reads dev.pages, bus
    {
      dev.ShownOn(bus.controller.ram)
    }

    constructor (bus: Bus, font: Font)
      ensures this.bus == bus && this.font == font && fresh(dev) && fresh(dev.pages)
      ensures dev.Valid() && dev.picture == {}
    {
      this.bus := bus;
      this.font := font;
      dev := new Device();
    }

    /** Whatever the panel held before, it is blank and equal to the buffer afterwards. */
    method Init()
      requires dev.Valid() && bus.controller.operands == 0 && font[0x1F] == Zeros(8)
      modifies dev, dev.pages, bus
      ensures Valid() && Shown() && dev.picture == {}
    {
      InitSelectsPageMode(bus.controller);
      SendCommands(bus, INIT_STREAM);
      dev.Clear();
      ClearScreen(dev, bus, font, false);
      assert dev.picture == {};
      SetContrast(bus, 0xFF);
    }

    method RenderText(lineIndex: nat, text: Text)
      requires Valid()
      modifies dev, dev.pages, bus
      ensures Valid() && (old(Shown()) ==> Shown())
      ensures forall p: Point :: p.y / 8 != lineIndex ==> (p in dev.picture <==> p in old(dev.picture))
      ensures forall p :: 0 <= p < 8 ==>
        dev.Row(p) == if p == lineIndex then TextRow(font, Fitting(text), false, old(dev.Row(p)))
                      else old(dev.Row(p))
    {
      DisplayText(dev, bus, font, lineIndex, text, false);
    }

    method DrawLine(l: Line, invert: bool)
      requires Valid() && LineDrawable(l)
      modifies dev, dev.pages
      ensures Valid() && dev.picture == Painted(old(dev.picture), Shape(l), invert)
    {
      dev.DrawLine(l, invert);
    }

    method ShowBuffer()
      requires Valid()
      modifies bus
      ensures Valid() && Shown()
    {
      Ssd1306.ShowBuffer(dev, bus);
    }

    /** Takes over the other display's buffer by value. */
    method SetDisplayDev(other: Display)
      requires dev.Shaped() && other.Valid() && bus == other.bus
      modifies dev, dev.pages
      ensures Valid() && dev.picture == old(other.dev.picture)
      ensures old(other.Shown()) ==> Shown()
    {
      dev.CopyFrom(other.dev);
      assert forall p :: 0 <= p < 8 ==> dev.Row(p) == old(other.dev.Row(p));
    }
  }
}
