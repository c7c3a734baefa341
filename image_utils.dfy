/** client/src/lib/imageUtils.ts: the CSS box-shadow text of the editor's shadow,
    the conversion of a data URL into a byte blob, and the element lookup that
    guards rasterisation. */
module ImageUtils {
  import opened Wrappers
  import opened Text
  import opened EditorTypes

  // ---------------------------------------------------------------------------
  // generateEditorShadow

  /** `n.toFixed(2)` for n = u / 100 with u a natural number: the integral part,
      a point, and exactly two decimals. */
  function UnsignedFixed2(u: nat): (r: string)
    ensures |r| >= 4 && r[|r| - 3] == '.'
    ensures IsDigits(r[..|r| - 3]) && IsDigits(r[|r| - 2..])
  {
    NatToString(u / 100) + "." + [DigitChar(u % 100 / 10), DigitChar(u % 10)]
  }

  /** `intensity.toFixed(2)` for an intensity held in hundredths. */
  function Fixed2(h: int): (r: string)
    ensures |r| >= 4
  {
    if h < 0 then "-" + UnsignedFixed2(-h) else UnsignedFixed2(h)
  }

  /** The number of hundredths a text with exactly two decimals stands for. */
  function UnsignedFixed2Value(s: string): Option<nat> {
    if |s| >= 4 && s[|s| - 3] == '.' && IsDigits(s[..|s| - 3]) && IsDigits(s[|s| - 2..])
    then Some(DigitsValue(s[..|s| - 3]) * 100 + DigitsValue(s[|s| - 2..]))
    else None
  }

  function Fixed2Value(s: string): Option<int> {
    if |s| >= 1 && s[0] == '-' then
      match UnsignedFixed2Value(s[1..])
      case Some(u) => Some(-(u as int))
      case None => None
    else UnsignedFixed2Value(s)
  }

  /** `${n}px`. */
  function Px(n: int): string {
    IntToString(n) + "px"
  }

  /** `generateEditorShadow`: "none" when disabled, otherwise the four offsets in
      pixels and a black colour whose alpha is the intensity. The shadow's own
      colour is not used. */
  function ShadowCss(shadow: Shadow): string {
    if !shadow.enabled then "none"
    else
      var p := shadow.position;
      Px(p.x) + " " + Px(p.y) + " " + Px(p.blur) + " " + Px(p.spread) + " "
        + "rgba(0, 0, 0, " + Fixed2(shadow.intensity) + ")"
  }

  /** The numbers a box-shadow text carries. */
  datatype ShadowFields = ShadowFields(x: int, y: int, blur: int, spread: int, intensity: int)

  function PxValue(s: string): Option<int> {
    if |s| >= 2 && s[|s| - 2..] == "px" then DecimalValue(s[..|s| - 2]) else None
  }

  /** Reads the numbers back out of a box-shadow text in the form `ShadowCss` writes. */
  function ParseShadowCss(css: string): Option<ShadowFields> {
    var parts := Split(css, ' ');
    if |parts| != 8 || parts[4] != "rgba(0," || parts[5] != "0," || parts[6] != "0," then None
    else
      var last := parts[7];
      if |last| == 0 || last[|last| - 1] != ')' then None
      else
        match (PxValue(parts[0]), PxValue(parts[1]), PxValue(parts[2]), PxValue(parts[3]),
               Fixed2Value(last[..|last| - 1]))
        case (Some(x), Some(y), Some(b), Some(sp), Some(h)) => Some(ShadowFields(x, y, b, sp, h))
        case _ => None
  }

  // ---------------------------------------------------------------------------
  // Properties of the shadow text

  lemma DigitsValueTwo(a: char, b: char)
    requires IsDigit(a) && IsDigit(b)
    ensures IsDigits([a, b])
    ensures DigitsValue([a, b]) == (a as int - '0' as int) * 10 + (b as int - '0' as int)
  {
    assert [a, b][..1] == [a];
    assert [a][..0] == [];
    assert DigitsValue([a]) == DigitsValue([]) * 10 + (a as int - '0' as int);
  }

  /** The two-decimal text reads back as the number of hundredths. */
  lemma UnsignedFixed2RoundTrip(u: nat)
    ensures UnsignedFixed2Value(UnsignedFixed2(u)) == Some(u)
  {
    var w := NatToString(u / 100);
    var d := [DigitChar(u % 100 / 10), DigitChar(u % 10)];
    var r := UnsignedFixed2(u);
    assert r == w + "." + d;
    assert r[..|r| - 3] == w;
    assert r[|r| - 2..] == d;
    NatToStringValue(u / 100);
    DigitsValueTwo(d[0], d[1]);
  }

  lemma Fixed2RoundTrip(h: int)
    ensures Fixed2Value(Fixed2(h)) == Some(h)
  {
    if h < 0 {
      assert Fixed2(h)[1..] == UnsignedFixed2(-h);
      UnsignedFixed2RoundTrip(-h);
    } else {
      UnsignedFixed2RoundTrip(h);
      assert IsDigit(UnsignedFixed2(h)[0]) by {
        assert UnsignedFixed2(h)[0] == NatToString(h / 100)[0];
      }
    }
  }

  /** A quarter renders as "0.25" and full intensity as "1.00". */
  lemma Fixed2Samples()
    ensures Fixed2(25) == "0.25" && Fixed2(100) == "1.00" && Fixed2(20) == "0.20"
  {
  }

  lemma PxRoundTrip(n: int)
    ensures PxValue(Px(n)) == Some(n)
  {
    var s := Px(n);
    assert s[..|s| - 2] == IntToString(n);
    assert s[|s| - 2..] == "px";
    IntToStringRoundTrip(n);
  }

  lemma IntToStringNoSpace(n: int)
    ensures ' ' !in IntToString(n)
  {
    var r := NatToString(if n < 0 then -n else n);
    assert forall k :: 0 <= k < |r| ==> r[k] != ' ';
    if n < 0 {
      assert IntToString(n) == "-" + r;
    }
  }

  lemma Fixed2NoSpace(h: int)
    ensures ' ' !in Fixed2(h) + ")"
  {
    var u := UnsignedFixed2(if h < 0 then -h else h);
    var w := NatToString((if h < 0 then -h else h) / 100);
    assert forall k :: 0 <= k < |w| ==> w[k] != ' ';
    assert u == w + "." + u[|u| - 2..];
  }

  /** The eight space-separated pieces of an enabled shadow's text. */
  function ShadowPieces(shadow: Shadow): seq<string> {
    var p := shadow.position;
    [Px(p.x), Px(p.y), Px(p.blur), Px(p.spread), "rgba(0,", "0,", "0,", Fixed2(shadow.intensity) + ")"]
  }

  lemma JoinCons(head: string, tail: seq<string>, sep: char)
    requires |tail| >= 1
    ensures Join([head] + tail, sep) == head + [sep] + Join(tail, sep)
  {
    assert ([head] + tail)[1..] == tail;
  }

  lemma JoinAlphaPieces(alpha: string)
    ensures Join(["rgba(0,", "0,", "0,", alpha + ")"], ' ') == "rgba(0, 0, 0, " + alpha + ")"
  {
    var f := alpha + ")";
    assert Join([f], ' ') == f;
    JoinCons("0,", [f], ' ');
    JoinCons("0,", ["0,", f], ' ');
    JoinCons("rgba(0,", ["0,", "0,", f], ' ');
    assert ["rgba(0,"] + ["0,", "0,", f] == ["rgba(0,", "0,", "0,", f];
  }

  lemma AppendAssoc(w: string, x: string, y: string, z: string)
    ensures w + (x + y + z) == w + x + y + z
  {
  }

  lemma SpaceAssoc(x: string, y: string, z: string)
    ensures x + " " + (y + " " + z) == x + " " + y + " " + z
  {
  }

  lemma JoinOffsetPieces(a: string, b: string, c: string, d: string, tail: seq<string>)
    requires |tail| >= 1
    ensures Join([a, b, c, d] + tail, ' ') == a + " " + b + " " + c + " " + d + " " + Join(tail, ' ')
  {
    var j := Join(tail, ' ');
    JoinCons(d, tail, ' ');
    JoinCons(c, [d] + tail, ' ');
    JoinCons(b, [c] + ([d] + tail), ' ');
    JoinCons(a, [b] + ([c] + ([d] + tail)), ' ');
    assert [a] + ([b] + ([c] + ([d] + tail))) == [a, b, c, d] + tail;
    calc {
      a + " " + (b + " " + (c + " " + (d + " " + j)));
      { SpaceAssoc(c, d, j); }
      a + " " + (b + " " + (c + " " + d + " " + j));
      { SpaceAssoc(b, c + " " + d, j); SpaceAssoc(b, c, d); }
      a + " " + (b + " " + c + " " + d + " " + j);
      { SpaceAssoc(a, b + " " + c + " " + d, j); SpaceAssoc(a, b + " " + c, d); SpaceAssoc(a, b, c); }
      a + " " + b + " " + c + " " + d + " " + j;
    }
  }

  lemma ShadowCssPieces(shadow: Shadow)
    requires shadow.enabled
    ensures ShadowCss(shadow) == Join(ShadowPieces(shadow), ' ')
  {
    var p := shadow.position;
    var alpha := Fixed2(shadow.intensity);
    var tail := ["rgba(0,", "0,", "0,", alpha + ")"];
    assert ShadowPieces(shadow) == [Px(p.x), Px(p.y), Px(p.blur), Px(p.spread)] + tail;
    JoinOffsetPieces(Px(p.x), Px(p.y), Px(p.blur), Px(p.spread), tail);
    JoinAlphaPieces(alpha);
    var front := Px(p.x) + " " + Px(p.y) + " " + Px(p.blur) + " " + Px(p.spread) + " ";
    AppendAssoc(front, "rgba(0, 0, 0, ", alpha, ")");
  }

  /** An enabled shadow's text splits at its spaces into the four px offsets
      and the four pieces of its `rgba(0, 0, 0, alpha)` colour. */
  lemma ShadowCssSplit(shadow: Shadow)
    requires shadow.enabled
    ensures Split(ShadowCss(shadow), ' ') == ShadowPieces(shadow)
  {
    var p := shadow.position;
    var ps := ShadowPieces(shadow);
    ShadowCssPieces(shadow);
    IntToStringNoSpace(p.x);
    IntToStringNoSpace(p.y);
    IntToStringNoSpace(p.blur);
    IntToStringNoSpace(p.spread);
    Fixed2NoSpace(shadow.intensity);
    forall k | 0 <= k < |ps| ensures ' ' !in ps[k] {
      if k < 4 {
        var n := if k == 0 then p.x else if k == 1 then p.y else if k == 2 then p.blur else p.spread;
        assert ps[k] == IntToString(n) + "px";
      }
    }
    SplitJoin(ps, ' ');
  }

  /** Any text that splits into the eight pieces reads back as their numbers. */
  lemma ParsePieces(css: string, x: int, y: int, blur: int, spread: int, alpha: string)
    requires Split(css, ' ') == [Px(x), Px(y), Px(blur), Px(spread), "rgba(0,", "0,", "0,", alpha + ")"]
    ensures Fixed2Value(alpha).Some? ==>
      ParseShadowCss(css) == Some(ShadowFields(x, y, blur, spread, Fixed2Value(alpha).value))
  {
    PxRoundTrip(x);
    PxRoundTrip(y);
    PxRoundTrip(blur);
    PxRoundTrip(spread);
    var last := alpha + ")";
    assert last[..|last| - 1] == alpha;
  }

  /** Round trip: an enabled shadow's text carries exactly its offsets and
      intensity, and nothing of its colour. */
  lemma ShadowCssRoundTrip(shadow: Shadow)
    requires shadow.enabled
    ensures ParseShadowCss(ShadowCss(shadow)) ==
      Some(ShadowFields(shadow.position.x, shadow.position.y, shadow.position.blur,
                        shadow.position.spread, shadow.intensity))
  {
    var p := shadow.position;
    ShadowCssSplit(shadow);
    Fixed2RoundTrip(shadow.intensity);
    ParsePieces(ShadowCss(shadow), p.x, p.y, p.blur, p.spread, Fixed2(shadow.intensity));
  }

  /** A disabled shadow renders as "none" whatever its other fields hold. */
  lemma ShadowDisabled(shadow: Shadow, other: Shadow)
    requires !shadow.enabled && !other.enabled
    ensures ShadowCss(shadow) == "none" && ShadowCss(shadow) == ShadowCss(other)
  {
  }

  /** An enabled shadow never renders as "none", and two enabled shadows render
      alike exactly when their offsets and intensity agree. */
  lemma ShadowEnabledText(a: Shadow, b: Shadow)
    requires a.enabled && b.enabled
    ensures ShadowCss(a) != "none"
    ensures ShadowCss(a) == ShadowCss(b) <==> a.position == b.position && a.intensity == b.intensity
  {
    ShadowCssRoundTrip(a);
    ShadowCssRoundTrip(b);
    assert ParseShadowCss("none") == None by {
      assert Split("none", ' ') == ["none"] by {
        SplitJoin(["none"], ' ');
      }
    }
    if a.position == b.position && a.intensity == b.intensity {
      assert ShadowCss(a) == ShadowCss(b);
    }
  }

  // ---------------------------------------------------------------------------
  // dataURLtoBlob

  /** `new Blob([u8arr], { type: mime })`. Bytes are integers in 0..255. */
  datatype Blob = Blob(bytes: seq<int>, mimeType: string)

  /** The type the `Blob` constructor records for the `type` option: empty when
      a character lies outside U+0020..U+007E, otherwise the text lower-cased. */
  function BlobType(t: string): (r: string)
    ensures (exists i :: 0 <= i < |t| && !(' ' <= t[i] <= '~')) ==> r == ""
    ensures (forall i :: 0 <= i < |t| ==> ' ' <= t[i] <= '~') ==>
      |r| == |t| && forall i :: 0 <= i < |r| ==> r[i] == LowerAscii(t[i])
  {
    if exists i :: 0 <= i < |t| && !(' ' <= t[i] <= '~') then ""
    else seq(|t|, i requires 0 <= i < |t| => LowerAscii(t[i]))
  }

  /** The recorded type is already normal: recording it again changes nothing,
      and it holds no capital letter. */
  lemma BlobTypeNormal(t: string)
    ensures BlobType(BlobType(t)) == BlobType(t)
    ensures forall i :: 0 <= i < |BlobType(t)| ==> !('A' <= BlobType(t)[i] <= 'Z')
  {
    var r := BlobType(t);
    if forall i :: 0 <= i < |t| ==> ' ' <= t[i] <= '~' {
      assert forall i :: 0 <= i < |r| ==> ' ' <= r[i] <= '~';
      assert BlobType(r) == r;
    }
  }

  /** An upper-case type is recorded in lower case; a type with a character outside
      printable ASCII is dropped. */
  lemma BlobTypeSamples()
    ensures BlobType("image/PNG") == "image/png"
    ensures BlobType("image/p\U{e9}ng") == ""
  {
    var bad := "image/p\U{e9}ng";
    assert !(' ' <= bad[7] <= '~');
  }

  /** The two ways the conversion throws: no `:...;` in the header (the non-null
      assertion on the match fails) and `atob` rejecting its argument. */
  datatype BlobError = MissingMimeType | InvalidBase64

  /** `arr[0].match(/:(.*?);/)[1]` with `arr = dataURL.split(',')`. */
  function DataUrlMime(dataUrl: string): Option<string> {
    LazyGroup(Split(dataUrl, ',')[0], ":", ';')
  }

  /** `arr[1]`, which is `undefined` (and reaches `atob` as the text "undefined")
      when the URL has no comma. */
  function DataUrlPayload(dataUrl: string): string {
    var arr := Split(dataUrl, ',');
    if |arr| >= 2 then arr[1] else "undefined"
  }

  /** Storing a UTF-16 code unit into a `Uint8Array` keeps its low eight bits. */
  function ToUint8(c: char): (b: int)
    ensures 0 <= b < 256
  {
    (c as int) % 256
  }

  /** The bytes of a decoded string, one per character. */
  function Bytes(bstr: string): (r: seq<int>)
    ensures |r| == |bstr|
  {
    seq(|bstr|, i requires 0 <= i < |bstr| => ToUint8(bstr[i]))
  }

  /** The string of Latin-1 characters a byte sequence spells. */
  function Latin1(bytes: seq<int>): string
    requires forall i :: 0 <= i < |bytes| ==> 0 <= bytes[i] < 256
  {
    seq(|bytes|, i requires 0 <= i < |bytes| => bytes[i] as char)
  }

  /** `atob` yields one character per byte, each below 256; for such a string the
      blob holds exactly the decoded bytes. */
  lemma BytesLatin1(bstr: string)
    requires forall i :: 0 <= i < |bstr| ==> bstr[i] as int < 256
    ensures Latin1(Bytes(bstr)) == bstr
  {
  }

  /** The bytes are determined by, and determine, a Latin-1 decoded string. */
  lemma BytesInjective(s: string, t: string)
    requires forall i :: 0 <= i < |s| ==> s[i] as int < 256
    requires forall i :: 0 <= i < |t| ==> t[i] as int < 256
    ensures Bytes(s) == Bytes(t) <==> s == t
  {
    if Bytes(s) == Bytes(t) {
      BytesLatin1(s);
      BytesLatin1(t);
    }
  }

  /** `dataURLtoBlob`. `atob` is the browser's base64 decoder, `None` where it throws. */
  method DataUrlToBlob(dataUrl: string, atob: string -> Option<string>) returns (r: Result<Blob, BlobError>)
    ensures DataUrlMime(dataUrl).None? ==> r == Failure(MissingMimeType)
    ensures DataUrlMime(dataUrl).Some? && atob(DataUrlPayload(dataUrl)).None? ==> r == Failure(InvalidBase64)
    ensures DataUrlMime(dataUrl).Some? && atob(DataUrlPayload(dataUrl)).Some? ==>
      r == Success(Blob(Bytes(atob(DataUrlPayload(dataUrl)).value), BlobType(DataUrlMime(dataUrl).value)))
  {
    var arr := Split(dataUrl, ',');
    var mime := LazyGroup(arr[0], ":", ';');
    if mime.None? {
      return Failure(MissingMimeType);
    }
    var decoded := atob(if |arr| >= 2 then arr[1] else "undefined");
    if decoded.None? {
      return Failure(InvalidBase64);
    }
    var bstr := decoded.value;
    var n := |bstr|;
    var u8arr := new int[n](_ => 0);
    while n != 0
      invariant 0 <= n <= |bstr| && u8arr.Length == |bstr|
      invariant forall i :: n <= i < |bstr| ==> u8arr[i] == ToUint8(bstr[i])
      decreases n
    {
      n := n - 1;
      u8arr[n] := ToUint8(bstr[n]);
    }
    assert u8arr[..] == Bytes(bstr);
    return Success(Blob(u8arr[..], BlobType(mime.value)));
  }

  /** The header of a base64 data URL: "data:" + m + ";base64". */
  function DataUrlHeader(m: string): string {
    "data:" + m + ";base64"
  }

  lemma SplitDataUrl(m: string, payload: string)
    requires ',' !in m && ',' !in payload
    ensures Split("data:" + m + ";base64," + payload, ',') == [DataUrlHeader(m), payload]
  {
    var head := DataUrlHeader(m);
    assert "data:" + m + ";base64," + payload == head + ("," + payload);
    forall k | 0 <= k < |head| ensures head[k] != ',' {
      if 5 <= k < 5 + |m| {
        assert head[k] == m[k - 5];
      }
    }
    SplitPrefix(head, "," + payload, ',');
    assert Split("," + payload, ',') == [""] + Split(payload, ',') by {
      assert ("," + payload)[1..] == payload;
    }
    SplitJoin([payload], ',');
    assert head + "" == head;
  }

  lemma HeaderMime(m: string)
    requires ';' !in m && forall k :: 0 <= k < |m| ==> !IsLineTerminator(m[k])
    ensures LazyGroup(DataUrlHeader(m), ":", ';') == Some(m)
  {
    var head := DataUrlHeader(m);
    forall j: nat | j < 4 ensures !OccursAt(head, ":", j) {
      assert head[j] == "data"[j];
      NotOccursAt(head, ":", j, 0);
    }
    OccursAtJoin("data", ":", m + ";base64");
    assert head == "data" + ":" + (m + ";base64");
    forall k | 5 <= k < 5 + |m| ensures head[k] != ';' && !IsLineTerminator(head[k]) {
      assert head[k] == m[k - 5];
    }
    LazyGroupAt(head, ":", ';', 4, 5 + |m|);
    assert head[5..5 + |m|] == m;
  }

  /** The MIME type of a base64 data URL is the text between "data:" and ";base64";
      the payload is everything after the comma. */
  lemma DataUrlParts(m: string, payload: string)
    requires ',' !in m && ';' !in m && forall k :: 0 <= k < |m| ==> !IsLineTerminator(m[k])
    requires ',' !in payload
    ensures DataUrlMime("data:" + m + ";base64," + payload) == Some(m)
    ensures DataUrlPayload("data:" + m + ";base64," + payload) == payload
  {
    SplitDataUrl(m, payload);
    HeaderMime(m);
  }

  // ---------------------------------------------------------------------------
  // captureElementAsImage

  /** The document lookup of `captureElementAsImage`: `elements` are the ids present
      in the document and `rasterise` stands for html2canvas followed by
      `toDataURL("image/png")`. */
  function CaptureElementAsImage(elementId: string, elements: set<string>, rasterise: string -> string): (r: Result<string, string>)
    ensures r.Failure? <==> elementId !in elements
    ensures r.Success? ==> r.value == rasterise(elementId)
  {
    if elementId !in elements then Failure("Element with ID \"" + elementId + "\" not found")
    else Success(rasterise(elementId))
  }

  /** The failure names the missing id. */
  lemma CaptureFailureNamesId(elementId: string, elements: set<string>, rasterise: string -> string)
    requires elementId !in elements
    ensures Contains(CaptureElementAsImage(elementId, elements, rasterise).error, elementId)
  {
    var msg := "Element with ID \"" + elementId + "\" not found";
    OccursAtJoin("Element with ID \"", elementId, "\" not found");
    ContainsIff(msg, elementId, |"Element with ID \""|);
  }
}
