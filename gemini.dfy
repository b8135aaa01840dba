/**
 * The client-side logic of the Gemini service layer: scenario normalisation and
 * its fallback, the choice of the first inline image part, the data-URL parse and
 * strip steps, the text fallbacks, and the choice between native and raw-PCM
 * audio decoding. The remote calls themselves are parameters: what the service
 * answered, or that it threw.
 */
module Gemini {
  import opened Wrappers
  import opened Types
  import opened Base64
  import opened Pcm

  // ---------------------------------------------------------------------------
  // Scenario generation
  // ---------------------------------------------------------------------------

  /**
   * The object `JSON.parse` returns for a scenario reply. Nothing checks it
   * against the declared type, so every field may be missing.
   */
  datatype ParsedScenario = ParsedScenario(
    id: Option<string>, situation: Option<string>, theme: Option<string>, options: Option<seq<ScenarioOption>>)

  /**
   * A scenario of the declared type, seen as a parsed object: every field is
   * present, and its theme string reads back as the declared theme.
   */
  function Declared(g: GameScenario): (r: ParsedScenario)
    ensures r.options == Some(g.options) && r.theme == Some(ThemeName(g.theme))
    ensures r.id.Some? && r.situation.Some?
    ensures ThemeOf(r.theme.value) == Some(g.theme)
  {
    ThemeNameRoundTrip(g.theme);
    ParsedScenario(Some(g.id), Some(g.situation), Some(ThemeName(g.theme)), Some(g.options))
  }

  /** The outcome of the remote call: it threw, or it answered with a (possibly absent) text. */
  datatype Reply = CallFailed | Replied(text: Option<string>)

  /** The safety check: a scenario whose `options` is missing gets an empty list; nothing else changes. */
  function Normalise(p: ParsedScenario): (r: ParsedScenario)
    ensures r.options.Some?
    ensures r.id == p.id && r.situation == p.situation && r.theme == p.theme
    ensures p.options.Some? ==> r == p
    ensures p.options.None? ==> r.options == Some([])
  {
    if p.options.None? then p.(options := Some([])) else p
  }

  /** Normalising twice is normalising once, and a scenario of the declared type is left alone. */
  lemma NormaliseIdempotent(p: ParsedScenario, g: GameScenario)
    ensures Normalise(Normalise(p)) == Normalise(p)
    ensures Normalise(Declared(g)) == Declared(g)
  {
  }

  const FallbackScenario := GameScenario(
    "fallback",
    "You found ₹500 on the street. What do you do?",
    [ ScenarioOption("Save it", Impact(Some(500), Some(5), Some(0)), "Good start to an emergency fund!"),
      ScenarioOption("Spend it on treats", Impact(Some(0), Some(10), Some(0)), "Fun for now, but money is gone.") ],
    Savings)

  /** The fallback is a scenario of the declared type with the fixed id and two options. */
  lemma FallbackShape()
    ensures FallbackScenario.id == "fallback" && FallbackScenario.theme == Savings
    ensures |FallbackScenario.options| == 2
    ensures FallbackScenario.options[0].impact == Impact(Some(500), Some(5), Some(0))
    ensures FallbackScenario.options[1].impact == Impact(Some(0), Some(10), Some(0))
  {
  }

  /**
   * `generateGameScenario`: a non-empty reply text is parsed (`parse` stands for
   * `JSON.parse`; `None` is a text that does not parse to an object) and
   * normalised; an empty text, a failed call or a failed parse gives the
   * fallback. Nothing inside its `try` escapes; building the client, which
   * happens before the `try`, is not part of this model.
   */
  function GenerateGameScenario(reply: Reply, parse: string -> Option<ParsedScenario>): (r: ParsedScenario)
    ensures r.options.Some?
    ensures (reply.CallFailed? || !Truthy(reply.text)) ==> r == Declared(FallbackScenario)
    ensures reply.Replied? && Truthy(reply.text) ==>
      match parse(reply.text.value)
      case None => r == Declared(FallbackScenario)
      case Some(p) => r == Normalise(p)
  {
    match reply
    case CallFailed => Declared(FallbackScenario)
    case Replied(text) =>
      if !Truthy(text) then Declared(FallbackScenario)
      else
        match parse(text.value)
        case None => Declared(FallbackScenario)
        case Some(p) => Normalise(p)
  }

  /** Without a usable reply the result is the fallback whatever the parser does. */
  lemma FallbackWithoutReply(reply: Reply, parse: string -> Option<ParsedScenario>, parse': string -> Option<ParsedScenario>)
    requires reply.CallFailed? || !Truthy(reply.text)
    ensures GenerateGameScenario(reply, parse) == GenerateGameScenario(reply, parse') == Declared(FallbackScenario)
  {
  }

  // ---------------------------------------------------------------------------
  // Text fallbacks
  // ---------------------------------------------------------------------------

  const PlanFallback := "I couldn't generate a plan right now."
  const AnalysisFallback := "Analysis complete, but no text returned."

  /** `text || fallback`: an absent or empty text is replaced by the fixed message. */
  function OrFallback(text: Option<string>, fallback: string): (r: string)
    ensures Truthy(text) ==> r == text.value
    ensures !Truthy(text) ==> r == fallback
    ensures r != "" <==> Truthy(text) || fallback != ""
  {
    if Truthy(text) then text.value else fallback
  }

  /** The planner and the scam check always have something to show. */
  lemma ReplyTextNeverEmpty(text: Option<string>)
    ensures OrFallback(text, PlanFallback) != "" && OrFallback(text, AnalysisFallback) != ""
    ensures !Truthy(text) ==> OrFallback(text, PlanFallback) == PlanFallback
    ensures !Truthy(text) ==> OrFallback(text, AnalysisFallback) == AnalysisFallback
  {
  }

  // ---------------------------------------------------------------------------
  // Inline image parts
  // ---------------------------------------------------------------------------

  datatype InlineData = InlineData(mimeType: Option<string>, data: Option<string>)
  datatype Part = Part(inlineData: Option<InlineData>)

  /** A template-literal rendering of an optional string. */
  function Show(s: Option<string>): string {
    if s.None? then "undefined" else s.value
  }

  function DataUrl(mime: string, data: string): string {
    "data:" + mime + ";base64," + data
  }

  /**
   * The data URL of one inline part; the mime type defaults to `image/png`. A
   * letters-only image mime type and a one-line payload come back out of the
   * edit call's pattern unchanged, so a generated image can be edited as it is.
   */
  function ImageUrl(d: InlineData): (r: string)
    ensures StartsWith(r, "data:")
    ensures d.data.Some? && IsPayload(d.data.value) && (!Truthy(d.mimeType) || IsImageMime(d.mimeType.value)) ==>
      EditInput(r) == (if Truthy(d.mimeType) then d.mimeType.value else "image/png", d.data.value)
  {
    var mime := if Truthy(d.mimeType) then d.mimeType.value else "image/png";
    assert IsImageMime("image/png") by {
      assert "image/png"[..6] == "image/";
    }
    assert d.data.Some? && IsPayload(d.data.value) && IsImageMime(mime) ==>
      EditInput(DataUrl(mime, Show(d.data))) == (mime, d.data.value) by {
      if d.data.Some? && IsPayload(d.data.value) && IsImageMime(mime) {
        EditOfDataUrl(mime, d.data.value);
      }
    }
    DataUrl(mime, Show(d.data))
  }

  /** The index of the first part carrying inline data. */
  function FirstInline(parts: seq<Part>): (r: Option<nat>)
    ensures r.Some? ==> r.value < |parts| && parts[r.value].inlineData.Some?
    ensures r.Some? ==> forall j :: 0 <= j < r.value ==> parts[j].inlineData.None?
    ensures r.None? ==> forall j :: 0 <= j < |parts| ==> parts[j].inlineData.None?
  {
    if parts == [] then None
    else if parts[0].inlineData.Some? then Some(0)
    else
      match FirstInline(parts[1..])
      case None => None
      case Some(i) => Some(i + 1)
  }

  const NoImageError := "No image generated"
  const NoEditedImageError := "No edited image generated"

  /**
   * The scan of the first candidate's parts (`|| []` when the chain is missing):
   * the first part with inline data is returned as a data URL; if there is none,
   * the call throws `noImage`.
   */
  method ExtractImage(parts: Option<seq<Part>>, noImage: string) returns (r: Result<string, string>)
    ensures var ps := if parts.None? then [] else parts.value;
      match FirstInline(ps)
      case None => r == Failure(noImage)
      case Some(i) => r == Success(ImageUrl(ps[i].inlineData.value))
  {
    var ps := if parts.None? then [] else parts.value;
    for i := 0 to |ps|
      invariant forall j :: 0 <= j < i ==> ps[j].inlineData.None?
    {
      if ps[i].inlineData.Some? {
        return Success(ImageUrl(ps[i].inlineData.value));
      }
    }
    return Failure(noImage);
  }

  // ---------------------------------------------------------------------------
  // Data URLs coming in
  // ---------------------------------------------------------------------------

  predicate IsAsciiLetter(c: char) {
    'a' <= c <= 'z' || 'A' <= c <= 'Z'
  }

  /** The characters a regular-expression `.` does not match. */
  predicate IsLineTerminator(c: char) {
    c == '\n' || c == '\r' || c == '\U{2028}' || c == '\U{2029}'
  }

  /** The first group of the edit pattern: `image/` and one or more ASCII letters. */
  predicate IsImageMime(m: string) {
    |m| > 6 && m[..6] == "image/" && forall k :: 6 <= k < |m| ==> IsAsciiLetter(m[k])
  }

  /** The second group: one or more characters, none a line terminator. */
  predicate IsPayload(p: string) {
    |p| > 0 && forall k :: 0 <= k < |p| ==> !IsLineTerminator(p[k])
  }

  /** The length of the run of ASCII letters `s` starts with. */
  function LetterRun(s: string): (n: nat)
    ensures n <= |s|
    ensures forall k :: 0 <= k < n ==> IsAsciiLetter(s[k])
    ensures n < |s| ==> !IsAsciiLetter(s[n])
  {
    if s == [] || !IsAsciiLetter(s[0]) then 0 else 1 + LetterRun(s[1..])
  }

  /**
   * The pattern with its literal parts as parameters: `pre`, a run of one or more
   * letters, `marker`, then a payload. A letter is never the first character of
   * the marker, so the letter group is exactly the run of letters after `pre`.
   */
  function MatchLetters(s: string, pre: string, marker: string): Option<(string, string)> {
    if !StartsWith(s, pre) then None
    else
      var rest := s[|pre|..];
      var n := LetterRun(rest);
      var tail := rest[n..];
      if n > 0 && StartsWith(tail, marker) && IsPayload(tail[|marker|..])
      then Some((rest[..n], tail[|marker|..]))
      else None
  }

  predicate AllLetters(l: string) {
    forall k :: 0 <= k < |l| ==> IsAsciiLetter(l[k])
  }

  lemma MatchLettersSound(s: string, pre: string, marker: string)
    requires MatchLetters(s, pre, marker).Some?
    ensures var (l, p) := MatchLetters(s, pre, marker).value;
      s == pre + l + marker + p && |l| > 0 && AllLetters(l) && IsPayload(p)
  {
    var rest := s[|pre|..];
    var n := LetterRun(rest);
    var tail := rest[n..];
    assert s == pre + rest && rest == rest[..n] + tail && tail == marker + tail[|marker|..];
  }

  lemma MatchLettersComplete(pre: string, l: string, marker: string, p: string)
    requires |l| > 0 && AllLetters(l)
    requires marker != [] && !IsAsciiLetter(marker[0])
    ensures MatchLetters(pre + l + marker + p, pre, marker) == if IsPayload(p) then Some((l, p)) else None
  {
    var s := pre + l + marker + p;
    assert s[..|pre|] == pre;
    var rest := s[|pre|..];
    assert rest == l + (marker + p);
    LetterRunStops(l, marker + p);
    assert rest[..|l|] == l;
    var tail := rest[|l|..];
    assert tail == marker + p;
    assert tail[..|marker|] == marker && tail[|marker|..] == p;
  }

  /** `^data:(image\/[a-zA-Z]+);base64,(.+)$`, without the multiline flag. */
  function MatchImageDataUrl(s: string): (r: Option<(string, string)>)
    ensures r.Some? ==> IsImageMime(r.value.0) && IsPayload(r.value.1)
  {
    match MatchLetters(s, "data:image/", ";base64,")
    case None => None
    case Some((l, p)) =>
      MatchLettersSound(s, "data:image/", ";base64,");
      ImageMimeParts(l, "image/" + l);
      Some(("image/" + l, p))
  }

  /** `image/` followed by letters is an image mime type of the pattern, and nothing else is. */
  lemma ImageMimeParts(l: string, m: string)
    ensures m == "image/" + l ==> (IsImageMime(m) <==> |l| > 0 && AllLetters(l))
    ensures IsImageMime(m) ==> m == "image/" + m[6..]
  {
    if m == "image/" + l {
      assert m[..6] == "image/";
      assert forall k :: 6 <= k < |m| ==> m[k] == l[k - 6];
    }
  }

  /** The literal parts of a data URL, regrouped. */
  lemma DataUrlParts(l: string, p: string)
    ensures DataUrl("image/" + l, p) == "data:image/" + l + ";base64," + p
  {
  }

  /** Every match splits its input into an image mime type and a payload. */
  lemma MatchSound(s: string)
    requires MatchImageDataUrl(s).Some?
    ensures var (m, p) := MatchImageDataUrl(s).value;
      s == DataUrl(m, p) && IsImageMime(m) && IsPayload(p)
  {
    MatchLettersSound(s, "data:image/", ";base64,");
    var (l, p) := MatchLetters(s, "data:image/", ";base64,").value;
    DataUrlParts(l, p);
    ImageMimeParts(l, "image/" + l);
  }

  /** And every such data URL matches, with exactly that mime type and payload. */
  lemma MatchComplete(m: string, p: string)
    requires IsImageMime(m) && IsPayload(p)
    ensures MatchImageDataUrl(DataUrl(m, p)) == Some((m, p))
  {
    var l := m[6..];
    ImageMimeParts(l, m);
    DataUrlParts(l, p);
    MatchLettersComplete("data:image/", l, ";base64,", p);
  }

  /** A run of letters followed by a non-letter is measured exactly. */
  lemma {:induction false} LetterRunStops(letters: string, tail: string)
    requires AllLetters(letters)
    requires tail != [] && !IsAsciiLetter(tail[0])
    ensures LetterRun(letters + tail) == |letters|
    decreases |letters|
  {
    if letters == [] {
      assert letters + tail == tail;
    } else {
      assert (letters + tail)[1..] == letters[1..] + tail;
      LetterRunStops(letters[1..], tail);
    }
  }

  /**
   * The inline data `editVisionImage` sends: a matching data URL is split into its
   * mime type and payload; anything else is sent whole as `image/png`.
   */
  function EditInput(base64Image: string): (r: (string, string))
    ensures MatchImageDataUrl(base64Image).None? ==> r == ("image/png", base64Image)
    ensures MatchImageDataUrl(base64Image).Some? ==> DataUrl(r.0, r.1) == base64Image && IsImageMime(r.0)
  {
    match MatchImageDataUrl(base64Image)
    case None => ("image/png", base64Image)
    case Some(mp) => MatchSound(base64Image); mp
  }

  /** An image the service generated goes back for editing with its own mime type and payload. */
  lemma EditOfDataUrl(m: string, p: string)
    requires IsImageMime(m) && IsPayload(p)
    ensures EditInput(DataUrl(m, p)) == (m, p)
  {
    MatchComplete(m, p);
  }

  /**
   * A mime type whose letters are followed by anything but `;base64,`, such as
   * `image/svg+xml`, does not match: the input is sent whole as PNG.
   */
  lemma EditOfOtherMime(l: string, rest: string)
    requires AllLetters(l) && rest != [] && !IsAsciiLetter(rest[0]) && rest[0] != ';'
    ensures EditInput("data:image/" + l + rest) == ("image/png", "data:image/" + l + rest)
  {
    PrefixSplit("data:image/", l + rest);
    assert "data:image/" + l + rest == "data:image/" + (l + rest);
    LetterRunStops(l, rest);
    assert (l + rest)[|l|..] == rest;
  }

  /** A payload with a line break, or an empty one, does not match either. */
  lemma EditOfBadPayload(m: string, p: string)
    requires IsImageMime(m) && !IsPayload(p)
    ensures EditInput(DataUrl(m, p)) == ("image/png", DataUrl(m, p))
  {
    var l := m[6..];
    ImageMimeParts(l, m);
    DataUrlParts(l, p);
    MatchLettersComplete("data:image/", l, ";base64,", p);
  }

  lemma EditOfSvg(payload: string)
    ensures var s := "data:image/" + "svg" + "+xml;base64," + payload;
      EditInput(s) == ("image/png", s)
  {
    EditOfOtherMime("svg", "+xml;base64," + payload);
    assert "data:image/" + "svg" + "+xml;base64," + payload == "data:image/" + "svg" + ("+xml;base64," + payload);
  }

  lemma PrefixSplit(x: string, y: string)
    ensures StartsWith(x + y, x) && (x + y)[|x|..] == y
  {
    assert (x + y)[..|x|] == x;
  }

  /** The three prefixes the Veo call strips. */
  const PngPrefix := "data:image/png;base64,"
  const JpegPrefix := "data:image/jpeg;base64,"
  const JpgPrefix := "data:image/jpg;base64,"

  predicate StartsWith(s: string, prefix: string) {
    |prefix| <= |s| && s[..|prefix|] == prefix
  }

  /**
   * `replace(/^data:image\/(png|jpeg|jpg);base64,/, "")`: at most one leading
   * prefix is removed; a string with none of the three is returned as it is.
   */
  function StripVeoPrefix(s: string): (r: string)
    ensures |r| <= |s| && r == s[|s| - |r|..]
    ensures !StartsWith(s, PngPrefix) && !StartsWith(s, JpegPrefix) && !StartsWith(s, JpgPrefix) ==> r == s
  {
    if StartsWith(s, PngPrefix) then s[|PngPrefix|..]
    else if StartsWith(s, JpegPrefix) then s[|JpegPrefix|..]
    else if StartsWith(s, JpgPrefix) then s[|JpgPrefix|..]
    else s
  }

  /** Exactly one prefix is removed, even when the rest starts with another. */
  lemma StripVeoPrefixOnce(prefix: string, rest: string)
    requires prefix == PngPrefix || prefix == JpegPrefix || prefix == JpgPrefix
    ensures StripVeoPrefix(prefix + rest) == rest
  {
    var s := prefix + rest;
    assert s[..|prefix|] == prefix;
    if prefix == JpegPrefix {
      assert s[11] == 'j';
      assert !StartsWith(s, PngPrefix) by { assert PngPrefix[11] == 'p'; }
    } else if prefix == JpgPrefix {
      assert s[11] == 'j' && s[13] == 'g';
      assert !StartsWith(s, PngPrefix) by { assert PngPrefix[11] == 'p'; }
      assert !StartsWith(s, JpegPrefix) by { assert JpegPrefix[13] == 'e'; }
    }
    assert s[|prefix|..] == rest;
  }

  /**
   * The image part the Veo call sends: the stripped string, always declared as
   * PNG, so a JPEG data URL goes out as its payload under the PNG type.
   */
  function VeoImage(base64Image: string): (r: (string, string))
    ensures r.1 == "image/png"
    ensures r.0 == StripVeoPrefix(base64Image)
    ensures |r.0| <= |base64Image| && r.0 == base64Image[|base64Image| - |r.0|..]
    ensures StartsWith(base64Image, JpegPrefix) ==> r == (base64Image[|JpegPrefix|..], "image/png")
  {
    assert StartsWith(base64Image, JpegPrefix) ==> StripVeoPrefix(base64Image) == base64Image[|JpegPrefix|..] by {
      if StartsWith(base64Image, JpegPrefix) {
        assert base64Image == JpegPrefix + base64Image[|JpegPrefix|..];
        StripVeoPrefixOnce(JpegPrefix, base64Image[|JpegPrefix|..]);
      }
    }
    (StripVeoPrefix(base64Image), "image/png")
  }

  /** A generated PNG data URL reaches Veo as its bare payload. */
  lemma VeoOfPngDataUrl(d: string)
    ensures VeoImage(DataUrl("image/png", d)) == (d, "image/png")
  {
    assert DataUrl("image/png", d) == PngPrefix + d;
    StripVeoPrefixOnce(PngPrefix, d);
  }

  /** The index of the first `c` in `s`. */
  function IndexOf(s: string, c: char): (r: Option<nat>)
    ensures r.None? <==> c !in s
    ensures r.Some? ==> r.value < |s| && s[r.value] == c && c !in s[..r.value]
  {
    if s == [] then None
    else if s[0] == c then Some(0)
    else
      match IndexOf(s[1..], c)
      case None => None
      case Some(i) =>
        assert s[..i + 1] == [s[0]] + s[1..][..i];
        Some(i + 1)
  }

  /** `s.split(',')[1]`: the text between the first and second comma; `None` (undefined) when there is no comma. */
  function SecondField(s: string): (r: Option<string>)
    ensures r.None? <==> ',' !in s
    ensures r.Some? ==> ',' !in r.value
    ensures r.Some? ==>
      var start := IndexOf(s, ',').value + 1;
      var end := start + |r.value|;
      && end <= |s| && r.value == s[start..end]
      && (end == |s| || s[end] == ',')
  {
    match IndexOf(s, ',')
    case None => None
    case Some(i) =>
      var rest := s[i + 1..];
      match IndexOf(rest, ',')
      case None => Some(rest)
      case Some(j) => Some(rest[..j])
  }

  /** Of `a,b,c` with no comma in `a` or `b`, `split(',')[1]` is `b`, whatever follows. */
  lemma SecondFieldOf(a: string, b: string, c: string)
    requires ',' !in a && ',' !in b
    ensures SecondField(a + [','] + b) == Some(b)
    ensures SecondField(a + [','] + b + [','] + c) == Some(b)
  {
    IndexOfAfter(a, b, ',');
    assert (a + [','] + b)[|a| + 1..] == b;
    var s := a + [','] + b + [','] + c;
    assert s == a + [','] + (b + [','] + c);
    IndexOfAfter(a, b + [','] + c, ',');
    assert s[|a| + 1..] == b + [','] + c;
    IndexOfAfter(b, c, ',');
    assert (b + [','] + c)[..|b|] == b;
  }

  /** `readAsDataURL` output gives back its payload when neither part contains a comma. */
  lemma SecondFieldOfDataUrl(m: string, p: string)
    requires ',' !in m && ',' !in p
    ensures SecondField(DataUrl(m, p)) == Some(p)
  {
    var s := DataUrl(m, p);
    var head := "data:" + m + ";base64";
    assert s == head + [','] + p;
    assert ',' !in head by {
      assert head == "data:" + m + ";base64";
    }
    IndexOfAfter(head, p, ',');
    assert s[|head| + 1..] == p;
  }

  lemma IndexOfAfter(head: string, tail: string, c: char)
    requires c !in head
    ensures IndexOf(head + [c] + tail, c) == Some(|head|)
  {
    var s := head + [c] + tail;
    assert s[..|head|] == head;
    assert s[|head|] == c;
    var i := IndexOf(s, c).value;
    assert s[..i] == s[..i];
  }

  // ---------------------------------------------------------------------------
  // Text-to-speech decoding
  // ---------------------------------------------------------------------------

  /**
   * `decodeAudioData`: the native decoder's buffer when it succeeds (`native`),
   * otherwise the raw-PCM fallback.
   */
  method DecodeAudioData(data: seq<Byte>, native: Option<AudioBuffer>) returns (r: Result<AudioBuffer, AudioError>)
    ensures native.Some? ==> r == Success(native.value)
    ensures native.None? && SamplesOf(data).Failure? ==> r == Failure(SamplesOf(data).error)
    ensures native.None? && SamplesOf(data).Success? ==>
      r == Success(AudioBuffer(OutputSampleRate, [SamplesOf(data).value]))
  {
    if native.Some? {
      return Success(native.value);
    }
    r := RawPcmFallback(data);
  }
}
