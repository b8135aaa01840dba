# FinQuest Bharat: a Dafny model of its client-side logic

FinQuest Bharat is a React front-end for learning about money. It has a scenario game, a live voice mentor, a vision board, a planner and a scam check. Most of what it does is send a request to a hosted Gemini model and show the reply. This project models the logic that runs in the browser and proves properties of it:

- `wrappers.dfy`: `Option` and `Result`.
- `types.dfy`: the shared data model (the learner track, the three stat gauges, scenarios and their options, chat messages).
- `base64.dfy`: `btoa` and `atob`. That is base64 as in section 4 of RFC 4648, plus the "forgiving-base64 decode" that `atob` runs: ASCII whitespace is ignored, one or two trailing `=` are optional, leftover bits are dropped, and any other character, or a single leftover digit, throws.
- `pcm.dfy`: the 16-bit PCM wire format. Floats become Int16 by truncating toward zero and then wrapping modulo 2^16; nothing clamps. Samples are packed low byte first and base64-encoded. The way back decodes, reads Int16 and divides by 32768. The file also holds the indexed loops that do this and the raw-PCM fallback of text-to-speech decoding.
- `mentor.dfy`: the voice session as a class. It holds the playback cursor, the set of scheduled source nodes, the interrupt flush, and the start/stop steps. Ghost fields keep a log of the chunks scheduled since the last flush. The invariant ties each pending node's start time to a pure scheduling rule over that log.
- `app.dfy`: the clamped stats update, the initial stats, and the single active tab.
- `gemini.dfy`: scenario normalisation and its fallback, the scan for the first inline image part, the data-URL match (edit), strip (Veo) and split (file upload) steps, the text fallbacks, and the choice between native and raw-PCM decoding.
- `game.dfy`: the scenario game. It has its view selection, the impact labels (with a decimal printer and parser to read them back), and a class with the load and choice handlers.
- `vision.dfy`: the vision board as a class. Each async handler is split at its `await` into a `Begin` step and a `Finish` step.

Remote calls appear as parameters: a reply, or `Failure`/`CallFailed`/`None` when the call threw. `JSON.parse` is a function parameter. The audio clock's `currentTime` is a `now` parameter. Audio times are `real`, so floating-point rounding is abstracted away.

Four behaviours of the code worth knowing:

- `stopSession`, the teardown step, does not clear the playback cursor or the source set. It does not null the context refs either; it only closes the contexts. It does not close the live connection, so server messages can still arrive after it.
- The microphone encoder does not clamp. `1.0` becomes `-32768`.
- When the microphone is refused, `startSession` has already set `active` and created both contexts. They stay that way. Only the session ref is left unset.
- A chunk that fails to decode throws inside the async `onmessage` handler. This happens before the `interrupted` flag is looked at, so that message changes no state at all.

## Model

| member | source | states |
|---|---|---|
| Types.TrackOf | types.ts:1-4 | a string names a track only if it is that track's value |
| Types.TrackNameRoundTrip | types.ts:1-4 | each of the two tracks round-trips through its string value ('Student', 'Young Adult'), and the two values differ |
| Types.Amount | App.tsx:21-23 | the `or 0` fallback yields the field when it is truthy and 0 otherwise, so a field leaves its gauge untouched exactly when it is absent or 0 |
| Types.ThemeOf | types.ts:20 | a string names a theme only if it is that theme's literal |
| Types.ThemeNameRoundTrip | types.ts:20 | each of the five themes, 'Digital' included, round-trips through its literal |
| Types.RoleNameDistinct | types.ts:24 | the two chat roles are the distinct literals 'user' and 'model' |
| Base64.CharOf | components/MentorVoice.tsx:77 | every six-bit value maps to a character of the RFC 4648 alphabet |
| Base64.ValueOf | components/MentorVoice.tsx:97 | every alphabet character is the digit of the value it decodes to |
| Base64.ValueOfCharOf | components/MentorVoice.tsx:97 | decoding a digit gives back the six-bit value it was written for |
| Base64.Digits | components/MentorVoice.tsx:77 | values become alphabet digits one for one, each the digit of its value |
| Base64.Values | components/MentorVoice.tsx:97 | alphabet digits become values one for one, each the value of its digit |
| Base64.ValuesOfDigits | components/MentorVoice.tsx:77 | reading digits back as values inverts writing them |
| Base64.DigitCountExact | components/MentorVoice.tsx:77 | n bytes take 4·⌊n/3⌋ digits, plus 2 or 3 for a final partial group |
| Base64.DigitCountMod | components/MentorVoice.tsx:77 | the unpadded digit count is never 1 mod 4, and a partial group has at least two digits |
| Base64.ToSextets | components/MentorVoice.tsx:77 | the six-bit values of n bytes number exactly DigitCount(n) |
| Base64.SplitGroup | components/MentorVoice.tsx:77 | three bytes give four six-bit values |
| Base64.JoinGroup | components/MentorVoice.tsx:97 | four six-bit values give three bytes |
| Base64.TripleArith | components/MentorVoice.tsx:77 | the bit fields of three bytes, once split into four values, recombine to the bytes |
| Base64.JoinSplit | components/MentorVoice.tsx:97 | regrouping the four values of a byte triple gives back the triple |
| Base64.BytesToBinary | components/MentorVoice.tsx:72-76 | the binary string built by the `fromCharCode` loop has one code unit per byte, equal to it |
| Base64.BinaryToBytes | services/geminiService.ts:280-283 | the `charCodeAt` loop turns a binary string into equal bytes, one for one |
| Base64.Btoa | components/MentorVoice.tsx:77 | `btoa` succeeds exactly when every code unit is at most 0xFF |
| Base64.BtoaOfBytes | components/MentorVoice.tsx:72-77 | `btoa` of the binary string of some bytes is their padded RFC 4648 encoding |
| Base64.Encode | components/MentorVoice.tsx:77 | an encoding has a multiple of 4 characters: DigitCount(n) alphabet digits, then only `=` |
| Base64.FromSextets | components/MentorVoice.tsx:97 | k six-bit values give ⌊3k/4⌋ bytes |
| Base64.DropPadding | components/MentorVoice.tsx:97 | at most two characters, all `=`, are cut from the end, only when the length is a multiple of 4, and a final `=` at such a length always is |
| Base64.ForgivingDecode | components/MentorVoice.tsx:97 | a successful decode gives ⌊3k/4⌋ bytes for k remaining digits; its acceptance and rejection rules are the Decode* rows |
| Base64.EncodeLength | components/MentorVoice.tsx:77 | an encoding of n bytes has 4·⌈n/3⌉ characters |
| Base64.StripWhitespace | components/MentorVoice.tsx:97 | the stripped input contains no ASCII whitespace and is no longer than the input |
| Base64.StripWhitespaceCounts | components/MentorVoice.tsx:97 | every character other than ASCII whitespace occurs in the stripped input exactly as often as in the input |
| Base64.StripWhitespaceAppend | components/MentorVoice.tsx:97 | stripping a concatenation is concatenating the stripped pieces, so the kept characters keep their order |
| Base64.StripWhitespaceNoop | components/MentorVoice.tsx:97 | an input without whitespace passes the stripping step unchanged |
| Base64.StripWhitespaceKeeps | components/MentorVoice.tsx:97 | every non-whitespace character survives the stripping step |
| Base64.DropPaddingAfter | components/MentorVoice.tsx:97 | digits followed by the padding that completes a group of four lose exactly that padding |
| Base64.DropPaddingKeeps | components/MentorVoice.tsx:97 | dropping padding never removes a character other than `=` |
| Base64.Atob | components/MentorVoice.tsx:97 | whatever `atob` returns is a binary string |
| Base64.FromToSextets | components/MentorVoice.tsx:97 | regrouping six-bit values into bytes inverts splitting bytes into them |
| Base64.DecodeEncodeDigits | components/MentorVoice.tsx:97 | decoding the unpadded digits of an encoding gives back the bytes |
| Base64.DropPaddingOfEncode | components/MentorVoice.tsx:97 | the `=` padding `atob` drops is exactly the padding `btoa` added |
| Base64.DecodeEncode | components/MentorVoice.tsx:97 | the forgiving decode of every RFC 4648 encoding is the encoded bytes |
| Base64.AtobBtoa | components/MentorVoice.tsx:77 | `atob(btoa(x)) == x` for every binary string x |
| Base64.DecodeRejectsForeign | components/MentorVoice.tsx:97 | a character that is not a digit, whitespace or `=` makes `atob` throw, wherever it stands |
| Base64.DecodeIgnoresWhitespace | components/MentorVoice.tsx:97 | inserting one ASCII whitespace character anywhere does not change what `atob` decodes |
| Base64.DecodeRejectsLeftoverDigit | components/MentorVoice.tsx:97 | once whitespace and padding are removed, a length of 1 mod 4 makes `atob` throw |
| Base64.DecodeRejectsShape | components/MentorVoice.tsx:97 | an `=` anywhere but the last one or two places of a whitespace-free input whose length is a multiple of 4 makes `atob` throw |
| Pcm.Trunc | components/MentorVoice.tsx:67 | truncation toward zero: the result lies within 1 of x, on zero's side |
| Pcm.WrapInt16 | components/MentorVoice.tsx:67 | the Int16 store keeps the value congruent modulo 2^16 in [-32768, 32768); in range it is unchanged |
| Pcm.EncodeSample | components/MentorVoice.tsx:67 | the stored Int16 is congruent to trunc(x·32768) modulo 2^16 |
| Pcm.DecodeSample | components/MentorVoice.tsx:109 | a decoded sample lies in [-1, 1) |
| Pcm.EncodeSampleInside | components/MentorVoice.tsx:67 | for x in (-1, 1) the stored sample is trunc(x·32768), within [-32767, 32767] |
| Pcm.EncodeSampleFullScale | components/MentorVoice.tsx:67 | 1.0 and -1.0 are both stored as -32768, because nothing clamps |
| Pcm.SampleRoundTrip | components/MentorVoice.tsx:67 | re-encoding a decoded sample gives the same sample |
| Pcm.SampleQuantisation | components/MentorVoice.tsx:67 | for x in (-1, 1), encode then decode moves x by less than 1/32768 |
| Pcm.Lo | components/MentorVoice.tsx:69 | the low byte is the sample modulo 256 |
| Pcm.Hi | components/MentorVoice.tsx:69 | the high byte is 128 or more exactly when the sample is negative, and the two bytes give back the sample in two's complement |
| Pcm.Join | components/MentorVoice.tsx:104 | two little-endian bytes read as lo + 256·hi, less 2^16 when the high byte's top bit is set |
| Pcm.JoinLoHi | components/MentorVoice.tsx:69 | a sample's two little-endian bytes read back as the sample |
| Pcm.LoHiJoin | components/MentorVoice.tsx:104 | any two bytes are the low and high bytes of the sample they read as |
| Pcm.PackLE | components/MentorVoice.tsx:69 | the byte view of n samples has 2n bytes |
| Pcm.PackLEAt | components/MentorVoice.tsx:69 | byte 2i is the low byte of sample i and byte 2i+1 its high byte |
| Pcm.UnpackLE | components/MentorVoice.tsx:104-105 | 2n bytes read as n samples |
| Pcm.UnpackLEAt | components/MentorVoice.tsx:104 | sample i is read from bytes 2i (low) and 2i+1 (high) |
| Pcm.UnpackPack | components/MentorVoice.tsx:69 | reading the byte view back gives the samples written |
| Pcm.PackUnpack | components/MentorVoice.tsx:104 | every even-length byte string is the view of the samples read from it |
| Pcm.EncodeSamples | components/MentorVoice.tsx:64-68 | one Int16 per input float, each the encoded float |
| Pcm.ToFloats | components/MentorVoice.tsx:108-110 | one float per sample, each the decoded sample |
| Pcm.SamplesOf | components/MentorVoice.tsx:104-110 | an odd byte count gives RangeError and zero bytes NotSupportedError; otherwise bytes/2 samples, sample i read from bytes 2i and 2i+1 and divided by 32768 |
| Pcm.ChunkSamples | components/MentorVoice.tsx:97-110 | InvalidCharacterError exactly when `atob` throws; a decoded chunk has one sample per two bytes |
| Pcm.EncodeInputFrame | components/MentorVoice.tsx:64-77 | the two loops and `btoa` produce the RFC 4648 encoding of the little-endian bytes of the encoded samples |
| Pcm.DecodeBase64 | services/geminiService.ts:277-285 | `atob` throwing gives InvalidCharacterError; otherwise the bytes equal the `atob` result character by character, and are the forgiving decode of the input |
| Pcm.DecodeOutputChunk | components/MentorVoice.tsx:97-110 | a response chunk gives InvalidCharacterError (not base64), RangeError (odd byte count) or NotSupportedError (no frames), or else the samples s/32768 of its little-endian Int16s |
| Pcm.RawPcmFallback | services/geminiService.ts:296-307 | the fallback gives the same errors, or one mono channel at 24000 Hz of bytes/2 samples, each int16[i]/32768 |
| Pcm.ChunkSamplesShape | components/MentorVoice.tsx:104-110 | a decoded chunk has one sample per two bytes, each in [-1, 1) |
| Pcm.FrameRoundTrip | components/MentorVoice.tsx:64-110 | what the encoder sends, the decoder reads back as the decoded encoded samples |
| Pcm.FrameQuantisation | components/MentorVoice.tsx:64-110 | a frame of samples in (-1, 1) comes back within 1/32768 per sample |
| MentorVoice.Max | components/MentorVoice.tsx:118 | `Math.max` is an upper bound equal to one of its arguments |
| MentorVoice.Starts | components/MentorVoice.tsx:118-120 | the scheduling rule gives one start time per chunk |
| MentorVoice.StartAt | components/MentorVoice.tsx:118-120 | chunk k starts at max(cursor after chunks before k, its arrival time), and the cursor then moves past it by its duration |
| MentorVoice.StartsSnoc | components/MentorVoice.tsx:118-120 | scheduling one more chunk appends max(cursor, now) and moves the cursor to that plus its duration |
| MentorVoice.CursorAdvances | components/MentorVoice.tsx:120 | with non-negative durations the cursor never moves back |
| MentorVoice.CursorSplit | components/MentorVoice.tsx:118-120 | scheduling two runs of chunks is scheduling the second from where the first left the cursor |
| MentorVoice.StartNotBeforeClock | components/MentorVoice.tsx:118-119 | no chunk starts before the output clock's time at its arrival |
| MentorVoice.BackToBack | components/MentorVoice.tsx:118-120 | no chunk starts before the previous one ends; an early chunk starts exactly at that end, a late one at its arrival |
| MentorVoice.EndsByCursor | components/MentorVoice.tsx:118-120 | every scheduled chunk has ended by the time the cursor points at |
| MentorVoice.NoOverlap | components/MentorVoice.tsx:118-120 | scheduled chunks never overlap |
| MentorVoice.SourceNode.Duration | components/MentorVoice.tsx:106 | a buffer's duration, frames over 24000, is never negative |
| MentorVoice.SourceNode.Stop | components/MentorVoice.tsx:127 | afterwards the node is stopped, so it makes no more sound |
| MentorVoice.Close | components/MentorVoice.tsx:29-30 | closing leaves no context running, keeps an absent ref absent, and leaves a closed one closed (the browser's rejected promise on a second close is not modelled) |
| MentorVoice.HasAudio | components/MentorVoice.tsx:94-95 | audio is handled only when the first part's inline data is present and non-empty; the empty string it skips is exactly the chunk whose decode would throw NotSupportedError at `createBuffer` |
| MentorVoice.ScheduleOne | components/MentorVoice.tsx:118-123 | adding a node placed by the rule keeps the queue consistent with the log |
| MentorVoice.VoiceSession.constructor | components/MentorVoice.tsx:10-20 | first render: inactive, "Ready to connect", no session or contexts, cursor 0, no sources |
| MentorVoice.VoiceSession.StartSession | components/MentorVoice.tsx:35-148 | active, "Connecting to Mentor...", both contexts running, session ref set only once the microphone is granted, queue untouched |
| MentorVoice.VoiceSession.OnConnectionEvent | components/MentorVoice.tsx:132-136 | the close and error callbacks, like `onopen` at line 54, set only the status line, to their fixed texts |
| MentorVoice.VoiceSession.StopSession | components/MentorVoice.tsx:22-33 | session ref dropped (the connection is not closed), inactive, "Disconnected", existing contexts closed, cursor and sources kept; a second stop leaves the modelled state as it was |
| MentorVoice.VoiceSession.ScheduleChunk | components/MentorVoice.tsx:113-123 | the new node starts at max(cursor, now), the cursor moves to its end, and only that node joins the set |
| MentorVoice.VoiceSession.OnEnded | components/MentorVoice.tsx:123 | a node that ends leaves the set and nothing else changes |
| MentorVoice.VoiceSession.Interrupt | components/MentorVoice.tsx:126-130 | every pending node is stopped, the set is empty and the cursor is 0, whatever was pending |
| MentorVoice.VoiceSession.OnMessage | components/MentorVoice.tsx:92-131 | a decode error changes nothing; audio is scheduled before the interrupt flag is handled, so an interrupted message also stops the node it just scheduled |
| MentorVoice.VoiceSession.PendingEndByCursor | components/MentorVoice.tsx:118-123 | every pending node ends by the cursor |
| MentorVoice.VoiceSession.PendingDoNotOverlap | components/MentorVoice.tsx:118-123 | two pending nodes never play at the same time |
| MentorVoice.RestartKeepsOldCursor | components/MentorVoice.tsx:22-120 | after a stop and a new start the kept cursor still rules: the first new chunk starts at max(old cursor, now), so it plays old cursor − now late |
| App.AtLeastZero | App.tsx:21 | `Math.max(0, x)` is x when non-negative and 0 otherwise |
| App.Percent | App.tsx:22-23 | `Math.min(100, Math.max(0, x))` lies in [0, 100], equal to x inside it and to the nearer end outside |
| App.UpdateStats | App.tsx:19-25 | savings stay ≥ 0 and happiness and knowledge in [0, 100]; each is old + impact when that is in range and the bound it crossed otherwise |
| App.InitialStatsExample | App.tsx:13-17 | {1000, 50, 20} is in bounds, and {savings: -2000} takes it to {0, 50, 20} |
| App.NeutralImpact | App.tsx:21-23 | an impact whose fields are all absent or zero leaves an in-bounds state unchanged |
| App.UpdateSettles | App.tsx:19-25 | applying an empty impact after any update changes nothing more |
| App.FieldsIndependent | App.tsx:21-23 | each gauge depends only on its own old value and its own impact field |
| App.SavingsUnbounded | App.tsx:21 | savings have no upper bound: every non-negative balance is reachable |
| App.TabIdInjective | App.tsx:66-72 | two tabs have the same id only if they are the same tab |
| App.RenderedPanels | App.tsx:89-137 | every rendered panel's id equals the active tab's id |
| App.ExactlyOnePanel | App.tsx:89-137 | exactly one panel is rendered, the active tab's |
| App.Highlighted | App.tsx:76-80 | the highlighted button is the active tab's and no other |
| Gemini.Declared | types.ts:12-21 | a declared scenario, as an object, has all four fields, and its theme string reads back as its own theme |
| Gemini.Normalise | services/geminiService.ts:72-77 | a scenario without options gets `[]`; one with options, even empty, is unchanged; other fields never change |
| Gemini.NormaliseIdempotent | services/geminiService.ts:74-76 | normalising twice is normalising once, and a declared scenario is left alone |
| Gemini.FallbackShape | services/geminiService.ts:83-99 | the fallback has id "fallback", theme Savings and two options with impacts {500, 5, 0} and {0, 10, 0} |
| Gemini.GenerateGameScenario | services/geminiService.ts:71-99 | the result always has options; a failed call, an empty text or an unparsable text gives the fallback, a parsed text its normalisation |
| Gemini.FallbackWithoutReply | services/geminiService.ts:79-99 | without a usable reply the fallback comes back, whatever the parser would do |
| Gemini.OrFallback | services/geminiService.ts:113 | an absent or empty text is replaced by the fallback message; any other text is kept |
| Gemini.ReplyTextNeverEmpty | services/geminiService.ts:113-138 | the planner and scam-check replies are never empty, and fall back to their fixed messages |
| Gemini.ImageUrl | services/geminiService.ts:157-158 | the result is a `data:` URL, and one with a letters-only image mime (or none) and a one-line payload is split back into that mime (or `image/png`) and payload by the edit call |
| Gemini.FirstInline | services/geminiService.ts:154-155 | the chosen index is the first part carrying inline data; none means no part has any |
| Gemini.ExtractImage | services/geminiService.ts:154-161 | the scan returns the data URL of the first inline part, with mime defaulting to `image/png`, or throws when there is none (also for the edit at 187-193) |
| Gemini.LetterRun | services/geminiService.ts:168 | the measured run consists of letters and ends at a non-letter or the end |
| Gemini.MatchLettersSound | services/geminiService.ts:168 | a match splits the input into prefix, non-empty letters, marker and payload |
| Gemini.MatchLettersComplete | services/geminiService.ts:168 | prefix, letters, marker, payload matches exactly when the payload is valid, and gives back those letters and that payload |
| Gemini.ImageMimeParts | services/geminiService.ts:168 | `image/` followed by a string is an allowed mime type exactly when that string is non-empty letters |
| Gemini.DataUrlParts | services/geminiService.ts:158 | a data URL is `data:`, the mime type, `;base64,` and the payload, in that order |
| Gemini.MatchImageDataUrl | services/geminiService.ts:168 | a match's first group is `image/` and letters, its second a non-empty line |
| Gemini.MatchSound | services/geminiService.ts:168 | every match of the edit pattern is `data:<image/letters>;base64,<payload>` of its two groups |
| Gemini.MatchComplete | services/geminiService.ts:168 | every such data URL matches, with exactly that mime type and payload |
| Gemini.LetterRunStops | services/geminiService.ts:168 | a run of letters followed by a non-letter is measured exactly |
| Gemini.EditInput | services/geminiService.ts:168-170 | a non-matching input is sent whole as `image/png`; a matching one as its two groups |
| Gemini.EditOfDataUrl | services/geminiService.ts:168-170 | a data URL with a letters-only image mime and a valid payload is sent with that mime and payload |
| Gemini.EditOfOtherMime | services/geminiService.ts:168-170 | letters followed by anything but `;base64,` does not match and is sent whole as PNG |
| Gemini.EditOfBadPayload | services/geminiService.ts:168-170 | a payload with a line break, or an empty one, does not match and is sent whole as PNG |
| Gemini.EditOfSvg | services/geminiService.ts:168-170 | `data:image/svg+xml;base64,...` is sent whole as PNG |
| Gemini.PrefixSplit | services/geminiService.ts:168 | a concatenation starts with its first part and continues with its second |
| Gemini.StripVeoPrefix | services/geminiService.ts:200 | the result is a suffix of the input; an input with none of the three prefixes is unchanged |
| Gemini.StripVeoPrefixOnce | services/geminiService.ts:200 | exactly one leading png/jpeg/jpg prefix is removed, even when another follows |
| Gemini.VeoImage | services/geminiService.ts:200-207 | the Veo image is a suffix of the input, always declared `image/png`: a JPEG data URL goes out as its payload under the PNG type |
| Gemini.VeoOfPngDataUrl | services/geminiService.ts:200-207 | a PNG data URL reaches Veo as its bare payload |
| Gemini.IndexOf | services/geminiService.ts:270 | the index found is the first occurrence; none means the character is absent |
| Gemini.SecondField | services/geminiService.ts:270 | `split(',')[1]` is undefined exactly when there is no comma; otherwise it is the text from just after the first comma up to the next comma or the end |
| Gemini.SecondFieldOf | services/geminiService.ts:270 | of `a,b` and `a,b,c` with no comma in `a` or `b`, the second field is `b` |
| Gemini.SecondFieldOfDataUrl | services/geminiService.ts:266-270 | a `readAsDataURL` result gives back its payload when neither part has a comma |
| Gemini.IndexOfAfter | services/geminiService.ts:270 | the first comma after a comma-free head is at the head's length |
| Gemini.DecodeAudioData | services/geminiService.ts:287-309 | the native decoder's buffer when it succeeds, otherwise exactly the raw-PCM fallback's result |
| Game.DigitChar | components/GameScenario.tsx:85 | a digit value is printed as that decimal digit |
| Game.NatDigits | components/GameScenario.tsx:85 | a natural number prints as non-empty decimal digits without a leading zero |
| Game.Decimal | components/GameScenario.tsx:85 | a printed number starts with '-' exactly when it is negative |
| Game.ParseNat | components/GameScenario.tsx:85 | a string reads as a natural number exactly when it is non-empty digits |
| Game.ParseNatDigits | components/GameScenario.tsx:85 | reading back the digits of n gives n |
| Game.DecimalRoundTrip | components/GameScenario.tsx:85 | reading back a printed number gives the number |
| Game.ShowNumber | components/GameScenario.tsx:85-90 | an absent value renders as nothing; a present one as a numeral that reads back as the value |
| Game.SavingsLabel | components/GameScenario.tsx:83-87 | the label appears exactly when the value is `!== 0` (so also when absent), coloured as a gain exactly when strictly positive; its text is `+` when positive, `₹`, then the number (nothing when absent) |
| Game.HappinessLabel | components/GameScenario.tsx:88-92 | the same rule for the happiness label; its text is `+` when positive, the number (nothing when absent), then `% Happy` |
| Game.SavingsLabelReadsBack | components/GameScenario.tsx:85 | a savings label is '+' exactly when positive, then '₹', then the printed value |
| Game.HappinessLabelReadsBack | components/GameScenario.tsx:90 | a happiness label is '+' exactly when positive, then the printed value, then "% Happy" |
| Game.ThemeLabel | components/GameScenario.tsx:65 | the badge is the theme, or "General" when it is missing or empty, so it is never empty |
| Game.ThemeLabelDeclared | components/GameScenario.tsx:65 | a declared scenario's badge is its own theme's name, and the options safety check never changes the badge |
| Game.ViewOf | components/GameScenario.tsx:56-126 | spinner exactly when loading; retry exactly without a scenario; result exactly with a non-empty feedback; options exactly with empty or missing feedback and a non-empty option list |
| Game.GameView.constructor | components/GameScenario.tsx:12-14 | first render: no scenario, not loading, no feedback |
| Game.GameView.BeginLoad | components/GameScenario.tsx:16-19 | loading is set and feedback and scenario are cleared, so the spinner shows |
| Game.GameView.FinishLoad | components/GameScenario.tsx:20-31 | a returned scenario is stored, and spoken when it has a situation; a throw keeps the cleared scenario; loading ends false on both paths |
| Game.GameView.LoadNewScenario | components/GameScenario.tsx:16-32 | when the service's `try` is reached, a normalised scenario ends up showing, so the retry view is not reached this way |
| Game.GameView.HandleChoice | components/GameScenario.tsx:40-47 | no scenario or no options: nothing happens; otherwise the option's impact goes through `updateStats` once and its feedback is shown and spoken |
| Game.GameView.ChoiceShowsResult | components/GameScenario.tsx:40-47 | a choice shows its result, except that an empty feedback leaves the options up |
| Vision.PreviewOf | components/VisionBoard.tsx:64-72 | spinner when loading, then video, then image, then placeholder |
| Vision.VisionBoard.constructor | components/VisionBoard.tsx:5-9 | empty prompt, no image or video, not loading, create mode |
| Vision.VisionBoard.ShowsVeoButton | components/VisionBoard.tsx:99 | the Veo button shows exactly with an image and no video, and then the preview is that image or the spinner |
| Vision.VisionBoard.GenerateEnabled | components/VisionBoard.tsx:93 | the generate button works exactly when not loading and the prompt is non-empty, so never while the spinner shows |
| Vision.VisionBoard.ShowsStartOver | components/VisionBoard.tsx:110 | Start Over is offered exactly with an image: whenever the Veo button is, and always in edit mode (unless the image is the empty string) |
| Vision.VisionBoard.SetPrompt | components/VisionBoard.tsx:85 | typing changes only the prompt |
| Vision.VisionBoard.BeginGenerate | components/VisionBoard.tsx:11-22 | an empty prompt changes nothing; otherwise loading starts and the request is the prompt plus ", photorealistic, high quality" in create mode, the image and the prompt in edit mode with an image, and nothing in edit mode without one; a click on an enabled button always starts a request and disables the button |
| Vision.VisionBoard.FinishGenerate | components/VisionBoard.tsx:16-30 | a created image switches to edit and clears the prompt; an edited image replaces the image and clears the prompt; a failure changes nothing; loading ends false |
| Vision.VisionBoard.HandleGenerate | components/VisionBoard.tsx:11-31 | the whole handler without interleaving: the cases above end to end |
| Vision.VisionBoard.BeginVeo | components/VisionBoard.tsx:33-45 | without an image nothing happens; otherwise loading starts and the image is sent, so a click on a visible Veo button always sends and leaves it disabled |
| Vision.VisionBoard.FinishVeo | components/VisionBoard.tsx:46-54 | success stores the video URL, failure keeps the old one; loading ends false |
| Vision.VisionBoard.StartOver | components/VisionBoard.tsx:111 | image and video cleared and create mode, prompt kept |
| Vision.VeoRoundTrip | components/VisionBoard.tsx:33-55 | a Veo call that succeeds without interleaving keeps the image, shows the video and hides the Veo button |

## Left out

- Every `@google/genai` call (`generateContent`, `live.connect`, `generateVideos`), the 5-second polling loop over the Veo operation, `fetch` and `URL.createObjectURL`. These remote services have no visible semantics here. The model takes their outcome as a parameter.
- Web Audio and device plumbing: creating and closing AudioContexts (a closed context is a state value), ScriptProcessor wiring, `getUserMedia` (a granted/refused flag), `FileReader` (only its result string is modelled), and the native `decodeAudioData` (an optional buffer).
- The fire-and-forget `sessionPromise.then(...sendRealtimeInput...)` and the order in which async callbacks run. No order is promised. The model treats each callback as one atomic step.
- Interleavings inside the game's load handler. The vision board's handlers are split at their `await` so that other events can come in between, but only the uninterrupted runs (`HandleGenerate`, `VeoRoundTrip`) are proved end to end.
- MentorVoice.VoiceSession.StartSession: one atomic step. In the code, `getUserMedia` is awaited between creating the contexts and connecting. A `stopSession` during the permission prompt is therefore followed by `connect()`, which leaves a live session while `active` is false. The model does not capture this.
- MentorVoice.Close: a second `stopSession` calls `close()` on contexts that are already closed, for example End Call and then leaving the tab. Each such call returns a promise rejected with InvalidStateError, which nothing handles. The model only records that the context stays closed.
- MentorVoice.ServerMessage: a message whose `modelTurn` has no `parts` makes `parts[0]` throw a TypeError before the `interrupted` flag is read. The message type only expresses present or absent audio, so this case is not modelled.
- Floating-point rounding in audio times and sample conversion. Times and samples are `real`, with the truncation and wrap written out. NaN and infinities do not arise in the model.
- StripWhitespace: its own contract says only that no whitespace is left and that the result is no longer than the input. That every other character is kept, as often and in order, is stated by the lemmas StripWhitespaceCounts and StripWhitespaceAppend. Those facts are kept out of the function's contract because every proof that unfolds `atob` would then carry them.
- Types.UserStats: stat values are whole numbers, as the scenario replies use them, and are taken to lie within JavaScript's safe-integer range (magnitude at most 2^53 - 1). There, `prev.savings + impact` at App.tsx:21 is exact and `{option.impact.savings}` at GameScenario.tsx:85 prints in plain decimal. Beyond it a double sum rounds, and from 1e21 up the label prints in exponent form; the unbounded `int` and `Game.Decimal` do neither. An impact that is `NaN` (falsy in `impact.x || 0`) is not modelled.
- Gemini.GenerateGameScenario: the scenario's top-level fields are what `JSON.parse` gives back, but option items are assumed well-formed: each has a text, an impact object and a feedback. An option without `impact` would make the label at components/GameScenario.tsx:83 throw during render. The response schema the service enforces, and a non-array truthy `options`, are not modelled either. The in-place `parsed.options = []` is modelled on values, because the parsed object is fresh and nothing else refers to it.
- Gemini.GenerateGameScenario: `getAiClient()` runs before the `try` (services/geminiService.ts:10), so a throw while building the client escapes the function. The model covers only what happens inside the `try`.
- `speakText`, the text-to-speech player. Its decoding is modelled (`Gemini.DecodeAudioData`, `Pcm.RawPcmFallback`, `Pcm.DecodeBase64`); its playback and its swallowed errors are not.
- The Int16Array byte view is modelled as little-endian, the byte order of every platform browsers run on.
- `window.aistudio` key selection, `alert`, `console`, and the JSX layout and styling.
- The `theme` and `track` casts (`as UserTrack`, `as any`). The page only ever offers the declared values.
- components/ThinkingPlanner.tsx and components/ScamDetector.tsx. Each is an empty-input guard, a loading flag and a fixed error string around one service call. Only their reply fallbacks, `Gemini.OrFallback`, are modelled.
- `useEffect` triggers: the initial load and the reload on a track change, and stopping the session on unmount. These are calls of the modelled handlers.
