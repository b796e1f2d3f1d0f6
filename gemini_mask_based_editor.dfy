/** src/services/gemini_mask_based_editor.py: the API-key check of
    `_call_gemini_api`, the processing of the segmentation reply in
    `get_segmentation_mask` (item filtering, box scaling, data-URL prefix
    removal, Base64 padding) and the part scan of
    `inpaint_with_mask_and_reference`. */
module GeminiMaskBasedEditor {
  import opened Types
  import opened Text
  import opened JsonModel
  import opened GenaiTypes
  import Base64

  const ModelName := "models/gemini-2.5-flash-image-preview"
  const DataUrlPrefix := "data:image/png;base64,"
  const BoxKey := "box_2d"
  const MaskKey := "mask"

  /** `_call_gemini_api`'s guard on `settings.GOOGLE_API_KEY`. */
  function CheckApiKey(settingsKey: Option<string>): (r: Result<string>)
    ensures r.Ok? <==> Truthy(settingsKey)
    ensures r.Ok? ==> r.value == settingsKey.value
    ensures r.Err? ==> r.error == MissingApiKey
  {
    if Truthy(settingsKey) then Ok(settingsKey.value) else Err(MissingApiKey)
  }

  // ---------------------------------------------------------------------
  // Box scaling

  /** `im.size`: width, then height, in pixels. */
  datatype Size = Size(width: nat, height: nat)

  /** A pixel box: top, left, bottom, right. */
  datatype Box = Box(y0: int, x0: int, y1: int, x1: int)

  predicate NonDegenerate(b: Box)
  {
    b.y0 < b.y1 && b.x0 < b.x1
  }

  /** Python's `int(x)` of the quotient `a / b`: truncation toward zero. */
  function TruncDiv(a: int, b: int): (r: int)
    requires b > 0
    ensures 0 <= a ==> 0 <= r && r * b <= a < (r + 1) * b
    ensures a < 0 ==> r <= 0 && (r - 1) * b < a <= r * b
  {
    if a >= 0 then FloorDivBounds(a, b); a / b
    else FloorDivBounds(-a, b); -((-a) / b)
  }

  /** The quotient of a non-negative number: the multiples of `b` around `a`. */
  lemma FloorDivBounds(a: int, b: int)
    requires a >= 0 && b > 0
    ensures 0 <= a / b && (a / b) * b <= a < (a / b + 1) * b
  {
    var q, m := a / b, a % b;
    assert a == q * b + m && 0 <= m < b;
    assert (q + 1) * b == q * b + b;
  }

  /** `int(c / 1000 * dim)`, read over the integers. */
  function Scale(c: int, dim: nat): int
  {
    TruncDiv(c * dim, 1000)
  }

  /** A coordinate in the 0–1000 range lands inside the dimension. */
  lemma ScaleInRange(c: int, dim: nat)
    requires 0 <= c <= 1000
    ensures 0 <= Scale(c, dim) <= dim
  {
    assert c * dim <= 1000 * dim;
  }

  /** Scaling keeps the order of coordinates. */
  lemma ScaleMonotone(c: int, d: int, dim: nat)
    requires c <= d
    ensures Scale(c, dim) <= Scale(d, dim)
  {
    assert c * dim <= d * dim;
  }

  /** `y0, x0, y1, x1`: y by the height `size[1]`, x by the width
      `size[0]`. Ordered coordinates in the 0–1000 range give an ordered
      box inside the image, on each axis. */
  function ScaleBox(coords: seq<int>, size: Size): (b: Box)
    requires |coords| == 4
    ensures 0 <= coords[0] <= coords[2] <= 1000 ==> 0 <= b.y0 <= b.y1 <= size.height
    ensures 0 <= coords[1] <= coords[3] <= 1000 ==> 0 <= b.x0 <= b.x1 <= size.width
  {
    var dims := [size.height, size.width, size.height, size.width];
    ScaleAxis(coords[0], coords[2], size.height);
    ScaleAxis(coords[1], coords[3], size.width);
    Box(Scale(coords[0], dims[0]), Scale(coords[1], dims[1]), Scale(coords[2], dims[2]), Scale(coords[3], dims[3]))
  }

  /** Two ordered coordinates of one axis stay ordered and in range. */
  lemma ScaleAxis(lo: int, hi: int, dim: nat)
    ensures 0 <= lo <= hi <= 1000 ==> 0 <= Scale(lo, dim) <= Scale(hi, dim) <= dim
  {
    if 0 <= lo <= hi <= 1000 {
      ScaleInRange(lo, dim);
      ScaleInRange(hi, dim);
      ScaleMonotone(lo, hi, dim);
    }
  }

  /** A JSON value Python can divide: a number, or a boolean as 0 or 1. */
  predicate IsNumeric(j: Json)
  {
    j.JNum? || j.JBool?
  }

  function NumValue(j: Json): int
    requires IsNumeric(j)
  {
    if j.JNum? then j.n else if j.b then 1 else 0
  }

  /** The four coordinates `zip(box, dims)` yields, when `box` is a list of at
      least four numbers; anything else makes the comprehension or the
      four-way unpacking raise. */
  function Coordinates(box: Json): (r: Option<seq<int>>)
    ensures r.Some? <==> box.JArr? && |box.items| >= 4 && forall i :: 0 <= i < 4 ==> IsNumeric(box.items[i])
    ensures r.Some? ==> |r.value| == 4 && forall i :: 0 <= i < 4 ==> r.value[i] == NumValue(box.items[i])
  {
    if box.JArr? && |box.items| >= 4
       && IsNumeric(box.items[0]) && IsNumeric(box.items[1]) && IsNumeric(box.items[2]) && IsNumeric(box.items[3])
    then Some([NumValue(box.items[0]), NumValue(box.items[1]), NumValue(box.items[2]), NumValue(box.items[3])])
    else None
  }

  // ---------------------------------------------------------------------
  // Base64 padding

  /** `"=" * n`. */
  function PadChars(n: nat): (r: string)
    ensures |r| == n && forall i :: 0 <= i < n ==> r[i] == '='
  {
    if n == 0 then "" else "=" + PadChars(n - 1)
  }

  /** The padding safety check: append as many '=' as the length is short of
      a multiple of four. */
  function Pad(s: string): (r: string)
    ensures |r| % 4 == 0
    ensures |s| <= |r| <= |s| + 3 && r[..|s|] == s
    ensures forall i :: |s| <= i < |r| ==> r[i] == '='
    ensures |s| % 4 == 0 ==> r == s
  {
    var missing := |s| % 4;
    if missing != 0 then s + PadChars(4 - missing) else s
  }

  /** Padding gives back a correctly padded string from which up to three
      trailing '=' were dropped. */
  lemma PadRestoresStrippedPadding(s: string, k: nat)
    requires |s| % 4 == 0 && k <= 3 && k <= |s|
    requires forall i :: |s| - k <= i < |s| ==> s[i] == '='
    ensures Pad(s[..|s| - k]) == s
  {
    var t := s[..|s| - k];
    var r := Pad(t);
    assert |r| == |s| by {
      if k == 0 {
      } else {
        assert |t| % 4 == 4 - k;
      }
    }
    assert forall i :: 0 <= i < |s| ==> r[i] == s[i] by {
      forall i | 0 <= i < |s|
        ensures r[i] == s[i]
      {
        if i < |t| {
          assert r[..|t|][i] == t[i];
        }
      }
    }
  }

  /** A correctly padded Base64 text sent as a data URL, with up to three of
      its trailing '=' missing, comes out of the prefix removal and the
      padding as the text itself. */
  lemma DataUrlPadding(s: string, k: nat)
    requires |s| % 4 == 0 && k <= 3 && k <= |s|
    requires forall i :: |s| - k <= i < |s| ==> s[i] == '='
    ensures Pad(RemovePrefix(DataUrlPrefix + s[..|s| - k], DataUrlPrefix)) == s
  {
    var u := DataUrlPrefix + s[..|s| - k];
    assert u[..|DataUrlPrefix|] == DataUrlPrefix;
    assert RemovePrefix(u, DataUrlPrefix) == s[..|s| - k];
    PadRestoresStrippedPadding(s, k);
  }

  /** The Base64 text of a mask, sent as a data URL with any part of its
      '=' padding missing, comes out of the prefix removal and the padding as
      text that decodes to the mask's bytes. */
  lemma MaskStringRoundTrip(b: Bytes, k: nat)
    requires k <= 2 && PaddedTail(Base64.Encode(b), k)
    ensures Base64.Decode(Pad(RemovePrefix(DataUrlPrefix + Dropped(Base64.Encode(b), k), DataUrlPrefix))) == Some(b)
  {
    var s := Base64.Encode(b);
    Base64.DecodeEncode(b);
    DecodeDataUrl(s, k, b);
  }

  /** The last `k` characters of `s` are '='. */
  predicate PaddedTail(s: string, k: nat)
  {
    k <= |s| && forall i :: |s| - k <= i < |s| ==> s[i] == '='
  }

  /** `s` without its last `k` characters. */
  function Dropped(s: string, k: nat): string
    requires k <= |s|
  {
    s[..|s| - k]
  }

  lemma DecodeDataUrl(s: string, k: nat, b: Bytes)
    requires |s| % 4 == 0 && k <= 3 && PaddedTail(s, k)
    requires Base64.Decode(s) == Some(b)
    ensures Base64.Decode(Pad(RemovePrefix(DataUrlPrefix + Dropped(s, k), DataUrlPrefix))) == Some(b)
  {
    DataUrlPadding(s, k);
  }

  // ---------------------------------------------------------------------
  // The segmentation reply

  /** One mask part pasted onto the final mask at its box. */
  datatype Placement = Placement(box: Box, mask: Bytes)

  /** What one element of the reply list does to the final mask. */
  datatype ItemOutcome = Skip | Place(placement: Placement) | Fail

  /** Decoding the Base64 text and opening and resizing the mask part to the
      box; `Raised` when any of them raised (the `except` skips the item). */
  type MaskDecoder = (string, Box) -> Call<Bytes>

  /** The body of the loop over `items` for one element. */
  function ItemStep(item: Json, size: Size, decode: MaskDecoder): (o: ItemOutcome)
    ensures o.Place? ==> NonDegenerate(o.placement.box)
    ensures item.JObj? && !(TruthyAt(item.fields, BoxKey) && TruthyAt(item.fields, MaskKey)) ==> o == Skip
    ensures !item.JObj? ==> o == Fail
  {
    if !item.JObj? then Fail  // `item.get` on a value that is not a dict
    else
      var d := item.fields;
      if !TruthyAt(d, BoxKey) || !TruthyAt(d, MaskKey) then Skip
      else
        match Coordinates(d[BoxKey])
        case None => Fail
        case Some(coords) =>
          var box := ScaleBox(coords, size);
          if box.y0 >= box.y1 || box.x0 >= box.x1 then Skip
          else if !d[MaskKey].JStr? then Fail  // `removeprefix` on a value that is not a str
          else
            match decode(Pad(RemovePrefix(d[MaskKey].s, DataUrlPrefix)), box)
            case Raised => Skip
            case Returned(part) => Place(Placement(box, part))
  }

  /** The mask parts pasted by the loop, in order; `None` when an element
      makes the loop raise. */
  function MaskPlacements(items: seq<Json>, size: Size, decode: MaskDecoder): (r: Option<seq<Placement>>)
    ensures r.Some? ==> |r.value| <= |items|
    ensures r.Some? ==> forall k :: 0 <= k < |r.value| ==> NonDegenerate(r.value[k].box)
  {
    if |items| == 0 then Some([])
    else
      match ItemStep(items[0], size, decode)
      case Fail => None
      case Skip => MaskPlacements(items[1..], size, decode)
      case Place(p) =>
        match MaskPlacements(items[1..], size, decode)
        case None => None
        case Some(ps) => Some([p] + ps)
  }

  /** `acc` pasted before whatever the rest of the loop pastes. */
  function Prepend(acc: seq<Placement>, r: Option<seq<Placement>>): Option<seq<Placement>>
  {
    if r.Some? then Some(acc + r.value) else None
  }

  /** One more element of the loop: what its outcome `o` does to the parts
      pasted so far. */
  lemma PrependStep(acc: seq<Placement>, items: seq<Json>, i: nat, size: Size, decode: MaskDecoder, o: ItemOutcome)
    requires i < |items| && o == ItemStep(items[i], size, decode)
    ensures o.Fail? ==> Prepend(acc, MaskPlacements(items[i..], size, decode)) == None
    ensures o.Skip? ==> Prepend(acc, MaskPlacements(items[i..], size, decode))
                        == Prepend(acc, MaskPlacements(items[i + 1..], size, decode))
    ensures o.Place? ==> Prepend(acc, MaskPlacements(items[i..], size, decode))
                         == Prepend(acc + [o.placement], MaskPlacements(items[i + 1..], size, decode))
  {
    assert items[i..][0] == items[i] && items[i..][1..] == items[i + 1..];
    var rest := MaskPlacements(items[i + 1..], size, decode);
    if o.Place? && rest.Some? {
      assert acc + ([o.placement] + rest.value) == (acc + [o.placement]) + rest.value;
    }
  }

  /** An element without a truthy `box_2d` or `mask` is skipped: it neither
      fails the call nor pastes anything. */
  lemma IncompleteItemSkipped(item: Json, rest: seq<Json>, size: Size, decode: MaskDecoder)
    requires item.JObj? && !(TruthyAt(item.fields, BoxKey) && TruthyAt(item.fields, MaskKey))
    ensures MaskPlacements([item] + rest, size, decode) == MaskPlacements(rest, size, decode)
  {
    assert ([item] + rest)[1..] == rest;
  }

  /** An element whose scaled box is empty in either direction is skipped,
      whatever its mask holds. */
  lemma DegenerateBoxSkipped(item: Json, size: Size, decode: MaskDecoder)
    requires item.JObj? && TruthyAt(item.fields, BoxKey) && TruthyAt(item.fields, MaskKey)
    requires Coordinates(item.fields[BoxKey]).Some?
    requires !NonDegenerate(ScaleBox(Coordinates(item.fields[BoxKey]).value, size))
    ensures ItemStep(item, size, decode) == Skip
  {
  }

  /** An element with a truthy `box_2d` and `mask`, a box of four numbers
      that scales to a non-empty box, and a string mask. */
  predicate WellFormedItem(item: Json, size: Size)
  {
    && item.JObj? && TruthyAt(item.fields, BoxKey) && TruthyAt(item.fields, MaskKey)
    && Coordinates(item.fields[BoxKey]).Some?
    && NonDegenerate(ScaleBox(Coordinates(item.fields[BoxKey]).value, size))
    && item.fields[MaskKey].JStr?
  }

  /** The pixel box of a well-formed element. */
  function ItemBox(item: Json, size: Size): Box
    requires WellFormedItem(item, size)
  {
    ScaleBox(Coordinates(item.fields[BoxKey]).value, size)
  }

  /** The Base64 text of a well-formed element's mask after the prefix
      removal and the padding. */
  function MaskText(item: Json, size: Size): string
    requires WellFormedItem(item, size)
  {
    Pad(RemovePrefix(item.fields[MaskKey].s, DataUrlPrefix))
  }

  /** A well-formed element whose mask decodes is pasted at its scaled box
      with the decoded part. */
  lemma ItemPlaced(item: Json, size: Size, decode: MaskDecoder)
    requires WellFormedItem(item, size) && decode(MaskText(item, size), ItemBox(item, size)).Returned?
    ensures ItemStep(item, size, decode)
            == Place(Placement(ItemBox(item, size), decode(MaskText(item, size), ItemBox(item, size)).value))
  {
  }

  /** A well-formed element whose mask fails to decode is skipped by the
      `except`. */
  lemma UndecodableMaskSkipped(item: Json, size: Size, decode: MaskDecoder)
    requires WellFormedItem(item, size) && decode(MaskText(item, size), ItemBox(item, size)).Raised?
    ensures ItemStep(item, size, decode) == Skip
  {
  }

  /** A box that is not four numbers, or a non-empty box with a mask that is
      not a string, makes the element raise: the comprehension or the
      unpacking fails, or `removeprefix` is missing. */
  lemma MalformedItemFails(item: Json, size: Size, decode: MaskDecoder)
    requires item.JObj? && TruthyAt(item.fields, BoxKey) && TruthyAt(item.fields, MaskKey)
    requires || Coordinates(item.fields[BoxKey]).None?
             || (&& NonDegenerate(ScaleBox(Coordinates(item.fields[BoxKey]).value, size))
                 && !item.fields[MaskKey].JStr?)
    ensures ItemStep(item, size, decode) == Fail
  {
  }

  /** The parts one element pastes on its own. */
  function Pasted(o: ItemOutcome): Option<seq<Placement>>
  {
    match o
    case Fail => None
    case Skip => Some([])
    case Place(p) => Some([p])
  }

  /** The parts of two runs of the loop one after the other; a raise in
      either is a raise. */
  function Join(a: Option<seq<Placement>>, b: Option<seq<Placement>>): Option<seq<Placement>>
  {
    if a.Some? && b.Some? then Some(a.value + b.value) else None
  }

  /** One element pastes what its outcome says. */
  lemma MaskPlacementsSingle(item: Json, size: Size, decode: MaskDecoder)
    ensures MaskPlacements([item], size, decode) == Pasted(ItemStep(item, size, decode))
  {
    var items := [item];
    assert items[0] == item && items[1..] == [];
    assert MaskPlacements([], size, decode) == Some([]);
    var o := ItemStep(item, size, decode);
    if o.Place? {
      assert [o.placement] + [] == [o.placement];
    }
  }

  /** The loop over `a + b` pastes the parts of `a` and then those of `b`,
      and raises when either part of the loop does. */
  lemma {:induction false} MaskPlacementsConcat(a: seq<Json>, b: seq<Json>, size: Size, decode: MaskDecoder)
    ensures MaskPlacements(a + b, size, decode) == Join(MaskPlacements(a, size, decode), MaskPlacements(b, size, decode))
  {
    if |a| == 0 {
      assert a + b == b;
      var rb := MaskPlacements(b, size, decode);
      if rb.Some? {
        assert [] + rb.value == rb.value;
      }
    } else {
      assert (a + b)[0] == a[0];
      assert (a + b)[1..] == a[1..] + b;
      MaskPlacementsConcat(a[1..], b, size, decode);
      var ra, rb := MaskPlacements(a[1..], size, decode), MaskPlacements(b, size, decode);
      if ItemStep(a[0], size, decode).Place? && ra.Some? && rb.Some? {
        var p := ItemStep(a[0], size, decode).placement;
        assert [p] + (ra.value + rb.value) == ([p] + ra.value) + rb.value;
      }
    }
  }

  /** The loop raises exactly when some element raises. */
  lemma {:induction false} MaskPlacementsFailIff(items: seq<Json>, size: Size, decode: MaskDecoder)
    ensures MaskPlacements(items, size, decode).None? <==> exists i :: 0 <= i < |items| && ItemStep(items[i], size, decode).Fail?
  {
    if |items| > 0 {
      MaskPlacementsFailIff(items[1..], size, decode);
      assert forall i :: 1 <= i < |items| ==> items[1..][i - 1] == items[i];
      if exists i :: 0 <= i < |items| && ItemStep(items[i], size, decode).Fail? {
        var i :| 0 <= i < |items| && ItemStep(items[i], size, decode).Fail?;
        if i > 0 {
          assert ItemStep(items[1..][i - 1], size, decode).Fail?;
        }
      }
    }
  }

  /** Some element of `items` has the outcome of pasting `p`. */
  predicate Produced(items: seq<Json>, size: Size, decode: MaskDecoder, p: Placement)
  {
    exists i :: 0 <= i < |items| && ItemStep(items[i], size, decode) == Place(p)
  }

  lemma ProducedByTail(items: seq<Json>, size: Size, decode: MaskDecoder, p: Placement)
    requires |items| > 0 && Produced(items[1..], size, decode, p)
    ensures Produced(items, size, decode, p)
  {
    var i :| 0 <= i < |items[1..]| && ItemStep(items[1..][i], size, decode) == Place(p);
    assert items[1..][i] == items[i + 1];
  }

  lemma ConsIndex(p: Placement, rest: seq<Placement>, k: int)
    requires 0 < k <= |rest|
    ensures ([p] + rest)[k] == rest[k - 1]
  {
  }

  /** Every pasted part is the outcome of some element of the reply. */
  lemma {:induction false} PlacementsFromItems(items: seq<Json>, size: Size, decode: MaskDecoder)
    requires MaskPlacements(items, size, decode).Some?
    ensures var ps := MaskPlacements(items, size, decode).value;
            forall k :: 0 <= k < |ps| ==> Produced(items, size, decode, ps[k])
  {
    if |items| > 0 {
      var ps := MaskPlacements(items, size, decode).value;
      var o := ItemStep(items[0], size, decode);
      PlacementsFromItems(items[1..], size, decode);
      var rest := MaskPlacements(items[1..], size, decode).value;
      assert o.Place? ==> ps == [o.placement] + rest;
      assert !o.Place? ==> ps == rest;
      forall k | 0 <= k < |ps|
        ensures Produced(items, size, decode, ps[k])
      {
        if o.Place? && k == 0 {
          assert ItemStep(items[0], size, decode) == Place(ps[0]);
        } else {
          if o.Place? {
            ConsIndex(o.placement, rest, k);
          }
          ProducedByTail(items, size, decode, ps[k]);
        }
      }
    }
  }

  /** The outside calls `get_segmentation_mask` makes. */
  datatype SegmentServices = SegmentServices(
    openImage: Bytes -> Call<Size>,                 // `Image.open(BytesIO(image_bytes))`
    segment: (string, Bytes) -> Call<TextReply>,    // the request with the key, the prompt and the image
    parseJson: string -> Call<Json>,                // `json.loads`; `Raised` for `JSONDecodeError`
    decodeMask: MaskDecoder,
    render: (Size, seq<Placement>) -> Bytes)        // pasting the parts onto a black mask and saving it as PNG

  /** The outcome `get_segmentation_mask` has. */
  function SegmentationMaskSpec(imageBytes: Bytes, settingsKey: Option<string>, svc: SegmentServices): Result<Bytes>
  {
    match svc.openImage(imageBytes)
    case Raised => Err(ServiceFailure)
    case Returned(size) =>
      match CheckApiKey(settingsKey)
      case Err(e) => Err(e)
      case Ok(key) =>
        match svc.segment(key, imageBytes)
        case Raised => Err(ServiceFailure)
        case Returned(reply) =>
          if reply.text.None? then Err(MalformedReply)  // `json.loads(None)` raises TypeError, which is not caught
          else
            match svc.parseJson(reply.text.value)
            case Raised => Err(InvalidJson)
            case Returned(items) =>
              if !TruthyJson(items) then Err(NoItemsDetected)
              else if !items.JArr? then Err(MalformedReply)  // iterating a dict, str or number never yields a dict
              else
                match MaskPlacements(items.items, size, svc.decodeMask)
                case None => Err(MalformedReply)
                case Some(ps) => Ok(svc.render(size, ps))
  }

  /** `get_segmentation_mask(image_bytes)`. */
  method GetSegmentationMask(imageBytes: Bytes, settingsKey: Option<string>, svc: SegmentServices)
    returns (r: Result<Bytes>)
    ensures r == SegmentationMaskSpec(imageBytes, settingsKey, svc)
  {
    var im := svc.openImage(imageBytes);
    if im.Raised? {
      return Err(ServiceFailure);
    }
    var size := im.value;
    var apiKey := CheckApiKey(settingsKey);
    if apiKey.Err? {
      return Err(apiKey.error);
    }
    var response := svc.segment(apiKey.value, imageBytes);
    if response.Raised? {
      return Err(ServiceFailure);
    }
    if response.value.text.None? {
      return Err(MalformedReply);
    }
    var parsed := svc.parseJson(response.value.text.value);
    if parsed.Raised? {
      return Err(InvalidJson);
    }
    var items := parsed.value;
    if !TruthyJson(items) {
      return Err(NoItemsDetected);
    }
    if !items.JArr? {
      return Err(MalformedReply);
    }

    var finalMask := PasteMasks(items.items, size, svc.decodeMask);
    if finalMask.None? {
      return Err(MalformedReply);
    }
    return Ok(svc.render(size, finalMask.value));
  }

  /** One pass of the body of the loop over `items`: what it does with
      `item`, with `png_str` reassigned by the prefix removal and the padding. */
  method ProcessItem(item: Json, size: Size, decode: MaskDecoder) returns (o: ItemOutcome)
    ensures o == ItemStep(item, size, decode)
  {
    if !item.JObj? {
      return Fail;
    }
    var d := item.fields;
    if !TruthyAt(d, BoxKey) || !TruthyAt(d, MaskKey) {
      return Skip;
    }
    var coords := Coordinates(d[BoxKey]);
    if coords.None? {
      return Fail;
    }
    var box := ScaleBox(coords.value, size);
    if box.y0 >= box.y1 || box.x0 >= box.x1 {
      return Skip;
    }
    if !d[MaskKey].JStr? {
      return Fail;
    }
    var pngStr := d[MaskKey].s;
    pngStr := RemovePrefix(pngStr, DataUrlPrefix);
    var missingPadding := |pngStr| % 4;
    if missingPadding != 0 {
      pngStr := pngStr + PadChars(4 - missingPadding);
    }
    assert pngStr == Pad(RemovePrefix(d[MaskKey].s, DataUrlPrefix));
    var maskPart := decode(pngStr, box);
    if maskPart.Raised? {
      return Skip;
    }
    return Place(Placement(box, maskPart.value));
  }

  /** The loop over `items` of `get_segmentation_mask`: the parts pasted onto
      `final_mask`, in order, or `None` when an element makes it raise. */
  method PasteMasks(items: seq<Json>, size: Size, decode: MaskDecoder) returns (r: Option<seq<Placement>>)
    ensures r == MaskPlacements(items, size, decode)
  {
    var finalMask: seq<Placement> := [];
    assert items[0..] == items;
    var whole := MaskPlacements(items, size, decode);
    assert Prepend(finalMask, whole) == whole by {
      if whole.Some? {
        assert [] + whole.value == whole.value;
      }
    }
    for i := 0 to |items|
      invariant MaskPlacements(items, size, decode)
                == Prepend(finalMask, MaskPlacements(items[i..], size, decode))
    {
      var outcome := ProcessItem(items[i], size, decode);
      PrependStep(finalMask, items, i, size, decode, outcome);
      if outcome.Fail? {
        return None;
      }
      if outcome.Place? {
        finalMask := finalMask + [outcome.placement];
      }
    }
    assert items[|items|..] == [];
    assert finalMask + [] == finalMask;
    return Some(finalMask);
  }

  /** The reply text `json.loads` receives, when the image opened, the key
      was truthy and the call returned a text. */
  function SegmentReply(imageBytes: Bytes, settingsKey: Option<string>, svc: SegmentServices): Option<string>
  {
    if svc.openImage(imageBytes).Raised? || !Truthy(settingsKey) then None
    else
      match svc.segment(settingsKey.value, imageBytes)
      case Raised => None
      case Returned(reply) => reply.text
  }

  /** The failures of the call before any element is looked at, and on
      success the rendering of exactly the parts the loop pastes. */
  lemma SegmentationOutcome(imageBytes: Bytes, settingsKey: Option<string>, svc: SegmentServices)
    ensures var r := SegmentationMaskSpec(imageBytes, settingsKey, svc);
            && (svc.openImage(imageBytes).Returned? && !Truthy(settingsKey) ==> r == Err(MissingApiKey))
            && (r == Err(InvalidJson) <==>
                  SegmentReply(imageBytes, settingsKey, svc).Some?
                  && svc.parseJson(SegmentReply(imageBytes, settingsKey, svc).value).Raised?)
            && (r == Err(NoItemsDetected) <==>
                  && SegmentReply(imageBytes, settingsKey, svc).Some?
                  && svc.parseJson(SegmentReply(imageBytes, settingsKey, svc).value).Returned?
                  && !TruthyJson(svc.parseJson(SegmentReply(imageBytes, settingsKey, svc).value).value))
    ensures var r := SegmentationMaskSpec(imageBytes, settingsKey, svc);
            r.Ok? ==>
              && SegmentReply(imageBytes, settingsKey, svc).Some?
              && svc.parseJson(SegmentReply(imageBytes, settingsKey, svc).value).Returned?
              && var items := svc.parseJson(SegmentReply(imageBytes, settingsKey, svc).value).value;
              && items.JArr?
              && var ps := MaskPlacements(items.items, svc.openImage(imageBytes).value, svc.decodeMask);
              && ps.Some?
              && r.value == svc.render(svc.openImage(imageBytes).value, ps.value)
    ensures var r := SegmentationMaskSpec(imageBytes, settingsKey, svc);
            var text := SegmentReply(imageBytes, settingsKey, svc);
            text.Some? && svc.parseJson(text.value).Returned? ==>
              var items := svc.parseJson(text.value).value;
              TruthyJson(items) && items.JArr? ==>
                var ps := MaskPlacements(items.items, svc.openImage(imageBytes).value, svc.decodeMask);
                ps.Some? ==> r == Ok(svc.render(svc.openImage(imageBytes).value, ps.value))
  {
  }

  // ---------------------------------------------------------------------
  // In-painting

  const JpegMime := "image/jpeg"
  const PngMime := "image/png"

  /** The three images of the in-painting request, in the order the prompt
      introduces them (the instruction texts are not modelled). */
  datatype InpaintRequest = InpaintRequest(generated: Blob, mask: Blob, reference: Blob)

  type InpaintCall = (string, InpaintRequest) -> Call<Response>

  /** The parts of `response.candidates[0].content`, when each step of that
      path exists. */
  function ReplyParts(reply: Response): Option<seq<Part>>
  {
    if reply.candidates.None? || |reply.candidates.value| == 0 then None   // TypeError or IndexError
    else if reply.candidates.value[0].content.None? then None              // AttributeError
    else reply.candidates.value[0].content.value.parts                     // iterating None is a TypeError
  }

  /** The inline data of the first part that has any. */
  function FirstInline(parts: seq<Part>): Option<Blob>
  {
    if |parts| == 0 then None
    else if parts[0].inlineData.Some? then parts[0].inlineData
    else FirstInline(parts[1..])
  }

  /** `FirstInline` picks the first part with inline data, and finds none
      exactly when no part has any. */
  lemma {:induction false} FirstInlineIsFirst(parts: seq<Part>)
    ensures FirstInline(parts).None? <==> forall i :: 0 <= i < |parts| ==> parts[i].inlineData.None?
    ensures FirstInline(parts).Some? ==>
              exists i :: 0 <= i < |parts| && parts[i].inlineData == FirstInline(parts)
                          && forall j :: 0 <= j < i ==> parts[j].inlineData.None?
  {
    if |parts| > 0 && parts[0].inlineData.None? {
      FirstInlineIsFirst(parts[1..]);
      assert forall i :: 1 <= i < |parts| ==> parts[1..][i - 1] == parts[i];
      if FirstInline(parts).Some? {
        var i :| 0 <= i < |parts[1..]| && parts[1..][i].inlineData == FirstInline(parts)
                 && forall j :: 0 <= j < i ==> parts[1..][j].inlineData.None?;
        assert parts[i + 1].inlineData == FirstInline(parts);
        assert forall j :: 0 <= j < i + 1 ==> parts[j].inlineData.None? by {
          forall j | 0 <= j < i + 1 ensures parts[j].inlineData.None? {
            if j > 0 {
              assert parts[j] == parts[1..][j - 1];
            }
          }
        }
      }
    }
  }

  /** The request: the generated image and the reference as JPEG, the mask
      as PNG. */
  function RequestFor(generated: Bytes, mask: Bytes, reference: Bytes): InpaintRequest
  {
    InpaintRequest(Blob(Some(generated), JpegMime), Blob(Some(mask), PngMime), Blob(Some(reference), JpegMime))
  }

  /** The outcome `inpaint_with_mask_and_reference` has: the data of the
      first part with inline data, which may itself be `None`. */
  function InpaintSpec(generated: Bytes, mask: Bytes, reference: Bytes, settingsKey: Option<string>, call: InpaintCall): Result<Option<Bytes>>
  {
    match CheckApiKey(settingsKey)
    case Err(e) => Err(e)
    case Ok(key) =>
      match call(key, RequestFor(generated, mask, reference))
      case Raised => Err(ServiceFailure)
      case Returned(reply) =>
        match ReplyParts(reply)
        case None => Err(MalformedReply)
        case Some(parts) =>
          match FirstInline(parts)
          case None => Err(NoInpaintData)
          case Some(blob) => Ok(blob.data)
  }

  /** `inpaint_with_mask_and_reference(generated_image_bytes, mask_bytes, original_product_bytes)`. */
  method InpaintWithMaskAndReference(generated: Bytes, mask: Bytes, reference: Bytes, settingsKey: Option<string>, call: InpaintCall)
    returns (r: Result<Option<Bytes>>)
    ensures r == InpaintSpec(generated, mask, reference, settingsKey, call)
  {
    var apiKey := CheckApiKey(settingsKey);
    if apiKey.Err? {
      return Err(apiKey.error);
    }
    var request := InpaintRequest(Blob(Some(generated), JpegMime), Blob(Some(mask), PngMime), Blob(Some(reference), JpegMime));
    var response := call(apiKey.value, request);
    if response.Raised? {
      return Err(ServiceFailure);
    }
    var parts := ReplyParts(response.value);
    if parts.None? {
      return Err(MalformedReply);
    }
    for i := 0 to |parts.value|
      invariant FirstInline(parts.value[i..]) == FirstInline(parts.value)
    {
      var part := parts.value[i];
      assert parts.value[i..][1..] == parts.value[i + 1..];
      if part.inlineData.Some? {
        return Ok(part.inlineData.value.data);
      }
    }
    return Err(NoInpaintData);
  }

  /** A reply whose first inline part carries no data still counts as a
      success, with `None` as the image. */
  lemma InpaintMayReturnNone(generated: Bytes, mask: Bytes, reference: Bytes, key: string, call: InpaintCall)
    requires |key| > 0
    requires forall k, q :: call(k, q) == Returned(Response(Some([Candidate(Some(Content(Some([Part(None, Some(Blob(None, PngMime)))]))))])))
    ensures InpaintSpec(generated, mask, reference, Some(key), call) == Ok(None)
  {
  }

  /** The outcome in every case: the missing-key error exactly without a
      truthy key; then the service failure exactly when the call raises, a
      malformed-reply error exactly when the reply has no first
      candidate's parts, and on parts the data of the first part with
      inline data, or the no-data error exactly when no part has any. */
  lemma InpaintOutcome(generated: Bytes, mask: Bytes, reference: Bytes, settingsKey: Option<string>, call: InpaintCall)
    ensures var r := InpaintSpec(generated, mask, reference, settingsKey, call);
            r == Err(MissingApiKey) <==> !Truthy(settingsKey)
    ensures var r := InpaintSpec(generated, mask, reference, settingsKey, call);
            Truthy(settingsKey) ==>
              var reply := call(settingsKey.value, RequestFor(generated, mask, reference));
              && (r == Err(ServiceFailure) <==> reply.Raised?)
              && (reply.Returned? ==> (r == Err(MalformedReply) <==> ReplyParts(reply.value).None?))
    ensures var r := InpaintSpec(generated, mask, reference, settingsKey, call);
            Truthy(settingsKey) ==>
              var reply := call(settingsKey.value, RequestFor(generated, mask, reference));
              reply.Returned? && ReplyParts(reply.value).Some? ==>
                var parts := ReplyParts(reply.value).value;
                && (FirstInline(parts).Some? ==> r == Ok(FirstInline(parts).value.data))
                && (r == Err(NoInpaintData) <==> forall i :: 0 <= i < |parts| ==> parts[i].inlineData.None?)
  {
    if Truthy(settingsKey) {
      var reply := call(settingsKey.value, RequestFor(generated, mask, reference));
      if reply.Returned? && ReplyParts(reply.value).Some? {
        FirstInlineIsFirst(ReplyParts(reply.value).value);
      }
    }
  }
}
