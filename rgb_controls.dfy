/** The colour and brightness handlers of src/components/RGBControls.tsx. The
    component keeps a local colour, the text of the hex box and a local brightness;
    each handler updates them first and then sends one command. The send is the
    function `send` from the command text to how `sendCommand` settles for it. */
module RgbControls {
  import opened Wrappers
  import opened Types
  import opened Formatters
  import opened DeviceApi

  /** A `Partial<RGB>`: the channels a slider supplies. */
  datatype PartialRgb = PartialRgb(r: Option<int>, g: Option<int>, b: Option<int>)

  /** `{ ...local, ...patch }`. */
  function Merge(local: Rgb, patch: PartialRgb): (m: Rgb)
    ensures patch.r.Some? ==> m.r == patch.r.value
    ensures patch.r.None? ==> m.r == local.r
    ensures patch.g.Some? ==> m.g == patch.g.value
    ensures patch.g.None? ==> m.g == local.g
    ensures patch.b.Some? ==> m.b == patch.b.value
    ensures patch.b.None? ==> m.b == local.b
  {
    Rgb(
      match patch.r case Some(v) => v case None => local.r,
      match patch.g case Some(v) => v case None => local.g,
      match patch.b case Some(v) => v case None => local.b)
  }

  /** Applying the same patch twice is applying it once. */
  lemma MergeIdempotent(local: Rgb, patch: PartialRgb)
    ensures Merge(Merge(local, patch), patch) == Merge(local, patch)
  {
  }

  /** Two patches in a row are one patch in which the later channels win. */
  lemma MergeCompose(local: Rgb, p: PartialRgb, q: PartialRgb)
    ensures Merge(Merge(local, p), q) ==
      Merge(local, PartialRgb(if q.r.Some? then q.r else p.r,
                              if q.g.Some? then q.g else p.g,
                              if q.b.Some? then q.b else p.b))
  {
  }

  /** The command `setRGB` sends for a colour. */
  function RgbCommand(c: Rgb): string {
    Encode(SetRgb(c.r, c.g, c.b))
  }

  class Controls {
    var localRgb: Rgb
    var localBrightness: int
    var colorHex: string

    /** The hex box shows the local colour. */
    predicate HexShowsColour()
      reads this
    {
      HexToRgb(colorHex) == Some(localRgb)
    }

    constructor (rgb: Rgb, brightness: int)
      ensures localRgb == rgb && localBrightness == brightness
      ensures colorHex == RgbToHex(rgb.r, rgb.g, rgb.b)
      ensures ChannelsInRange(rgb) ==> HexShowsColour()
    {
      localRgb := rgb;
      localBrightness := brightness;
      colorHex := RgbToHex(rgb.r, rgb.g, rgb.b);
      if ChannelsInRange(rgb) {
        HexRoundTrip(rgb.r, rgb.g, rgb.b);
      }
    }

    /** The effect on the `rgb` prop: local colour and hex text follow the device. */
    method SyncRgbProp(rgb: Rgb)
      modifies this
      ensures localRgb == rgb && colorHex == RgbToHex(rgb.r, rgb.g, rgb.b)
      ensures localBrightness == old(localBrightness)
      ensures ChannelsInRange(rgb) ==> HexShowsColour()
    {
      localRgb := rgb;
      colorHex := RgbToHex(rgb.r, rgb.g, rgb.b);
      if ChannelsInRange(rgb) {
        HexRoundTrip(rgb.r, rgb.g, rgb.b);
      }
    }

    /** The effect on the `brightness` prop. */
    method SyncBrightnessProp(brightness: int)
      modifies this
      ensures localBrightness == brightness
      ensures localRgb == old(localRgb) && colorHex == old(colorHex)
    {
      localBrightness := brightness;
    }

    /** `handleRgbChange(patch)`: merge, show the merged colour as hex, send it; `onUpdate`
        follows only a successful send. */
    method HandleRgbChange(patch: PartialRgb, send: string -> Outcome<CommandResponse>)
      returns (sent: string, updateRequested: bool)
      modifies this
      ensures localRgb == Merge(old(localRgb), patch)
      ensures colorHex == RgbToHex(localRgb.r, localRgb.g, localRgb.b)
      ensures localBrightness == old(localBrightness)
      ensures sent == RgbCommand(localRgb)
      ensures updateRequested <==> send(sent).Fulfilled?
      ensures ChannelsInRange(localRgb) ==> HexShowsColour()
    {
      var newRgb := Merge(localRgb, patch);
      localRgb := newRgb;
      colorHex := RgbToHex(newRgb.r, newRgb.g, newRgb.b);
      if ChannelsInRange(newRgb) {
        HexRoundTrip(newRgb.r, newRgb.g, newRgb.b);
      }
      sent := RgbCommand(newRgb);
      var result := send(sent);
      updateRequested := result.Fulfilled?;
    }

    /** `handleHexChange(hex)`: the box keeps whatever was typed; only text that parses
        updates the colour and is sent. */
    method HandleHexChange(hex: string, send: string -> Outcome<CommandResponse>)
      returns (sent: Option<string>, updateRequested: bool)
      modifies this
      ensures colorHex == hex
      ensures localBrightness == old(localBrightness)
      ensures HexToRgb(hex).None? ==> localRgb == old(localRgb) && sent == None && !updateRequested
      ensures HexToRgb(hex).Some? ==>
        && localRgb == HexToRgb(hex).value
        && sent == Some(RgbCommand(localRgb))
        && (updateRequested <==> send(sent.value).Fulfilled?)
        && HexShowsColour()
    {
      colorHex := hex;
      var parsed := HexToRgb(hex);
      sent, updateRequested := None, false;
      if parsed.Some? {
        localRgb := parsed.value;
        sent := Some(RgbCommand(parsed.value));
        var result := send(sent.value);
        updateRequested := result.Fulfilled?;
      }
    }

    /** `handleBrightnessChange(value)`. */
    method HandleBrightnessChange(value: int, send: string -> Outcome<CommandResponse>)
      returns (sent: string, updateRequested: bool)
      modifies this
      ensures localBrightness == value
      ensures localRgb == old(localRgb) && colorHex == old(colorHex)
      ensures sent == Encode(Brightness(value))
      ensures updateRequested <==> send(sent).Fulfilled?
    {
      localBrightness := value;
      sent := Encode(Brightness(value));
      var result := send(sent);
      updateRequested := result.Fulfilled?;
    }
  }
}
