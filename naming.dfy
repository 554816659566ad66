/** Media detection and folder naming: the pure helpers of the web server
    (`isMediaLoaded`, `getTimestamp`, `getVolumeLabel`, the `timestamp_label`
    folder) and the console copier's `baseName + counter` folder. */
module Naming {
  import opened Text
  import opened Environment

  datatype Option<T> = None | Some(value: T)

  // ---------------------------------------------------------------------
  // isMediaLoaded
  // ---------------------------------------------------------------------

  /** A drive holds a disc when the media query printed `TRUE`; a failed query means no disc. */
  function IsMediaLoaded(q: QueryResult): (loaded: bool)
    ensures loaded <==> q.Output? && exists i :: OccursAt(q.text, "TRUE", i)
  {
    match q
    case QueryFailed => false
    case Output(text) => ContainsIff(text, "TRUE"); Contains(text, "TRUE")
  }

  // ---------------------------------------------------------------------
  // getTimestamp
  // ---------------------------------------------------------------------

  /** The local date and time fields a JavaScript `Date` reports; `monthIndex` counts from 0. */
  datatype Clock = Clock(year: nat, monthIndex: nat, day: nat, hours: nat, minutes: nat, seconds: nat)

  predicate ValidClock(c: Clock) {
    c.monthIndex < 12 && 1 <= c.day <= 31 && c.hours < 24 && c.minutes < 60 && c.seconds < 60
  }

  /** `${year}${month}${day}`, the month counted from 1 and both zero-padded to two places. */
  function DatePart(c: Clock): string {
    NatToString(c.year) + TwoDigits(c.monthIndex + 1) + TwoDigits(c.day)
  }

  /** `${hours}${minutes}${seconds}`, each zero-padded to two places. */
  function TimePart(c: Clock): string {
    TwoDigits(c.hours) + TwoDigits(c.minutes) + TwoDigits(c.seconds)
  }

  /** `YYYYMMDD_HHMMSS`, the value of `getTimestamp()` at the moment `c`. */
  function Timestamp(c: Clock): string {
    DatePart(c) + "_" + TimePart(c)
  }

  /** The two characters of `t` from position `at` are the decimal digits of `v`. */
  predicate FieldIs(t: string, at: nat, v: nat) {
    at + 2 <= |t| && AllDigits(t[at..at + 2]) && DecimalValue(t[at..at + 2]) == v
  }

  lemma FieldInPrefix(t: string, rest: string, at: nat, v: nat)
    requires FieldIs(t, at, v)
    ensures FieldIs(t + rest, at, v)
  {
    assert (t + rest)[at..at + 2] == t[at..at + 2];
  }

  lemma FieldInSuffix(pre: string, t: string, at: nat, v: nat)
    requires FieldIs(t, at, v)
    ensures FieldIs(pre + t, |pre| + at, v)
  {
    assert (pre + t)[|pre| + at..|pre| + at + 2] == t[at..at + 2];
  }

  lemma TwoDigitsField(n: nat)
    requires n < 100
    ensures |TwoDigits(n)| == 2 && AllDigits(TwoDigits(n)) && FieldIs(TwoDigits(n), 0, n)
  {
    TwoDigitsValue(n);
    assert TwoDigits(n)[0..2] == TwoDigits(n);
  }

  /** Three pieces laid end to end: the digits of the first, then two two-digit fields. */
  lemma ThreePieces(a: string, b: string, e: string, vb: nat, ve: nat)
    requires AllDigits(a) && AllDigits(b) && AllDigits(e)
    requires |b| == 2 && |e| == 2 && FieldIs(b, 0, vb) && FieldIs(e, 0, ve)
    ensures |a + b + e| == |a| + 4 && AllDigits(a + b + e) && (a + b + e)[..|a|] == a
    ensures FieldIs(a + b + e, |a|, vb) && FieldIs(a + b + e, |a| + 2, ve)
  {
    AllDigitsConcat(a, b);
    AllDigitsConcat(a + b, e);
    assert (a + b + e)[|a|..|a| + 2] == b[0..2];
    assert (a + b + e)[|a| + 2..|a| + 4] == e[0..2];
  }

  lemma DatePartLayout(c: Clock)
    requires ValidClock(c)
    ensures |DatePart(c)| == |NatToString(c.year)| + 4 && AllDigits(DatePart(c))
    ensures DatePart(c)[..|NatToString(c.year)|] == NatToString(c.year)
    ensures FieldIs(DatePart(c), |NatToString(c.year)|, c.monthIndex + 1)
    ensures FieldIs(DatePart(c), |NatToString(c.year)| + 2, c.day)
  {
    TwoDigitsField(c.monthIndex + 1);
    TwoDigitsField(c.day);
    ThreePieces(NatToString(c.year), TwoDigits(c.monthIndex + 1), TwoDigits(c.day), c.monthIndex + 1, c.day);
  }

  lemma TimePartLayout(c: Clock)
    requires ValidClock(c)
    ensures |TimePart(c)| == 6 && AllDigits(TimePart(c))
    ensures FieldIs(TimePart(c), 0, c.hours)
    ensures FieldIs(TimePart(c), 2, c.minutes)
    ensures FieldIs(TimePart(c), 4, c.seconds)
  {
    var h := TwoDigits(c.hours);
    TwoDigitsField(c.hours);
    TwoDigitsField(c.minutes);
    TwoDigitsField(c.seconds);
    ThreePieces(h, TwoDigits(c.minutes), TwoDigits(c.seconds), c.minutes, c.seconds);
    FieldInPrefix(h, TwoDigits(c.minutes), 0, c.hours);
    FieldInPrefix(h + TwoDigits(c.minutes), TwoDigits(c.seconds), 0, c.hours);
  }

  /** `t` is laid out as `YYYYMMDD_HHMMSS` for the clock `c`, with `y` digits
      of year in front: the digits of the month and the day, an underscore,
      then the digits of the hours, the minutes and the seconds. */
  predicate TimestampShape(t: string, y: nat, c: Clock) {
    && |t| == y + 11 && t[y + 4] == '_'
    && AllDigits(t[..y + 4]) && AllDigits(t[y + 5..])
    && FieldIs(t, y, c.monthIndex + 1) && FieldIs(t, y + 2, c.day)
    && FieldIs(t, y + 5, c.hours) && FieldIs(t, y + 7, c.minutes) && FieldIs(t, y + 9, c.seconds)
  }

  /** A date part, an underscore and a time part laid end to end. */
  lemma JoinParts(d: string, tp: string, y: nat, c: Clock)
    requires |d| == y + 4 && AllDigits(d) && |tp| == 6 && AllDigits(tp)
    requires FieldIs(d, y, c.monthIndex + 1) && FieldIs(d, y + 2, c.day)
    requires FieldIs(tp, 0, c.hours) && FieldIs(tp, 2, c.minutes) && FieldIs(tp, 4, c.seconds)
    ensures TimestampShape(d + "_" + tp, y, c) && (d + "_" + tp)[..y] == d[..y]
  {
    var t := d + "_" + tp;
    FieldInPrefix(d, "_", y, c.monthIndex + 1);
    FieldInPrefix(d + "_", tp, y, c.monthIndex + 1);
    FieldInPrefix(d, "_", y + 2, c.day);
    FieldInPrefix(d + "_", tp, y + 2, c.day);
    FieldInSuffix(d + "_", tp, 0, c.hours);
    FieldInSuffix(d + "_", tp, 2, c.minutes);
    FieldInSuffix(d + "_", tp, 4, c.seconds);
    assert t[..y + 4] == d;
    assert t[y + 5..] == tp;
  }

  /** The layout of a timestamp: the year's digits, five two-digit fields and one underscore. */
  lemma TimestampLayout(c: Clock)
    requires ValidClock(c)
    ensures TimestampShape(Timestamp(c), |NatToString(c.year)|, c)
    ensures Timestamp(c)[..|NatToString(c.year)|] == NatToString(c.year)
  {
    DatePartLayout(c);
    TimePartLayout(c);
    JoinParts(DatePart(c), TimePart(c), |NatToString(c.year)|, c);
  }

  /** With a four-digit year the timestamp has exactly the fifteen characters of `YYYYMMDD_HHMMSS`. */
  lemma TimestampLength(c: Clock)
    requires ValidClock(c) && 1000 <= c.year <= 9999
    ensures |Timestamp(c)| == 15 && Timestamp(c)[8] == '_'
  {
    var n := c.year;
    assert |NatToString(n / 1000)| == 1;
    assert n / 100 / 10 == n / 1000;
    assert |NatToString(n / 100)| == 2;
    assert n / 10 / 10 == n / 100;
    assert |NatToString(n / 10)| == 3;
    assert |NatToString(n)| == 4;
    TimestampLayout(c);
  }

  // ---------------------------------------------------------------------
  // getVolumeLabel
  // ---------------------------------------------------------------------

  /** The marker `VolumeName=` of the label query, matched without regard to ASCII case. */
  const Marker: string := "volumename="

  function AsciiLower(c: char): char {
    if 'A' <= c <= 'Z' then (c as int + 32) as char else c
  }

  predicate MarkerAt(s: string, k: nat) {
    k + |Marker| <= |s| && forall m :: 0 <= m < |Marker| ==> AsciiLower(s[k + m]) == Marker[m]
  }

  /** The characters at which a regular-expression `.` stops. */
  predicate IsLineTerminator(c: char) {
    c == '\n' || c == '\r' || c == '\U{2028}' || c == '\U{2029}'
  }

  /** The first position at or after `from` where the marker starts. */
  function FindMarker(s: string, from: nat): (r: Option<nat>)
    ensures r.Some? ==> from <= r.value && MarkerAt(s, r.value)
                        && forall j :: from <= j < r.value ==> !MarkerAt(s, j)
    ensures r.None? ==> forall j: nat :: from <= j ==> !MarkerAt(s, j)
    decreases |s| - from
  {
    if from + |Marker| > |s| then None
    else if MarkerAt(s, from) then Some(from)
    else FindMarker(s, from + 1)
  }

  /** The longest prefix of `s` with no line terminator (what `(.*)` captures). */
  function TakeLine(s: string): (r: string)
    ensures |r| <= |s| && r == s[..|r|]
    ensures forall i :: 0 <= i < |r| ==> !IsLineTerminator(r[i])
    ensures |r| == |s| || IsLineTerminator(s[|r|])
  {
    if s == [] || IsLineTerminator(s[0]) then [] else [s[0]] + TakeLine(s[1..])
  }

  ghost predicate IsFirstMarker(s: string, k: nat) {
    MarkerAt(s, k) && forall j :: 0 <= j < k ==> !MarkerAt(s, j)
  }

  /** `c` is the whole line of `s` that starts at `start`. */
  ghost predicate IsLineAt(s: string, start: nat, c: string) {
    && start + |c| <= |s|
    && s[start..start + |c|] == c
    && (forall i :: 0 <= i < |c| ==> !IsLineTerminator(c[i]))
    && (start + |c| == |s| || IsLineTerminator(s[start + |c|]))
  }

  /** The capture of `/VolumeName=(.*)/i`: the rest of the line after the first marker, if any. */
  function Capture(text: string): (r: Option<string>)
    ensures r.None? <==> forall j: nat :: !MarkerAt(text, j)
    ensures r.Some? ==> exists k: nat :: IsFirstMarker(text, k) && IsLineAt(text, k + |Marker|, r.value)
  {
    match FindMarker(text, 0)
    case None => None
    case Some(k) =>
      var rest := text[k + |Marker|..];
      var c := TakeLine(rest);
      assert text[k + |Marker|..k + |Marker| + |c|] == c;
      assert IsFirstMarker(text, k) && IsLineAt(text, k + |Marker|, c);
      Some(c)
  }

  /** The characters the label cleanup replaces: `< > : " / \ | ? *`. */
  predicate IsIllegal(c: char) {
    c == '<' || c == '>' || c == ':' || c == '"' || c == '/' || c == '\\' || c == '|' || c == '?' || c == '*'
  }

  predicate NoIllegal(s: string) {
    forall i :: 0 <= i < |s| ==> !IsIllegal(s[i])
  }

  /** `label.replace(/[<>:"/\\|?*]/g, '_')`. */
  function Sanitize(s: string): (r: string)
    ensures |r| == |s|
    ensures forall i :: 0 <= i < |s| ==> r[i] == if IsIllegal(s[i]) then '_' else s[i]
    ensures NoIllegal(r)
  {
    if s == [] then [] else [if IsIllegal(s[0]) then '_' else s[0]] + Sanitize(s[1..])
  }

  const NoLabelPrefix: string := "CD_SIN_NOMBRE_"
  const LabelErrorPrefix: string := "CD_ERROR_"

  /** The label query printed a `VolumeName=` line whose value is not blank. */
  predicate HasLabel(text: string) {
    var c := Capture(text);
    c.Some? && Trim(c.value) != []
  }

  /** The volume vol of a disc, from the label query's result and `Date.now()` in milliseconds. */
  function VolumeLabel(q: QueryResult, nowMillis: nat): (vol: string)
    ensures vol != [] && NoIllegal(vol)
  {
    match q
    case QueryFailed => LabelErrorPrefix + NatToString(nowMillis)
    case Output(text) =>
      if HasLabel(text) then Sanitize(Trim(Capture(text).value))
      else NoLabelPrefix + NatToString(nowMillis)
  }

  /** `vol` is `prefix` followed by the decimal digits of `millis`. */
  predicate IsFallbackLabel(vol: string, prefix: string, millis: nat) {
    && |vol| > |prefix|
    && vol[..|prefix|] == prefix
    && AllDigits(vol[|prefix|..])
    && DecimalValue(vol[|prefix|..]) == millis
  }

  lemma FallbackLabelParts(prefix: string, millis: nat)
    ensures IsFallbackLabel(prefix + NatToString(millis), prefix, millis)
  {
    assert (prefix + NatToString(millis))[|prefix|..] == NatToString(millis);
    DecimalRoundTrip(millis);
  }

  /** A label query that threw gives `CD_ERROR_` followed by the time in milliseconds;
      a blank or missing label gives `CD_SIN_NOMBRE_` followed by it; a label that is
      present is the trimmed capture with each illegal character replaced by `_`. */
  lemma VolumeLabelCases(q: QueryResult, nowMillis: nat)
    ensures var vol := VolumeLabel(q, nowMillis);
      if q.QueryFailed? then IsFallbackLabel(vol, LabelErrorPrefix, nowMillis)
      else if !HasLabel(q.text) then IsFallbackLabel(vol, NoLabelPrefix, nowMillis)
      else
        var trimmed := Trim(Capture(q.text).value);
        && |vol| == |trimmed|
        && forall i :: 0 <= i < |vol| ==>
             (IsIllegal(trimmed[i]) ==> vol[i] == '_') && (!IsIllegal(trimmed[i]) ==> vol[i] == trimmed[i])
  {
    if q.QueryFailed? {
      FallbackLabelParts(LabelErrorPrefix, nowMillis);
    } else if !HasLabel(q.text) {
      FallbackLabelParts(NoLabelPrefix, nowMillis);
    }
  }

  /** Two label-less discs read at different milliseconds get different labels,
      and a failed label query never gives the label of a disc without one. */
  lemma FallbackLabelsDiffer(text1: string, text2: string, t1: nat, t2: nat)
    requires !HasLabel(text1) && !HasLabel(text2)
    ensures t1 != t2 ==> VolumeLabel(Output(text1), t1) != VolumeLabel(Output(text2), t2)
    ensures t1 != t2 ==> VolumeLabel(QueryFailed, t1) != VolumeLabel(QueryFailed, t2)
    ensures VolumeLabel(QueryFailed, t1) != VolumeLabel(Output(text2), t2)
  {
    VolumeLabelCases(Output(text1), t1);
    VolumeLabelCases(Output(text2), t2);
    VolumeLabelCases(QueryFailed, t1);
    VolumeLabelCases(QueryFailed, t2);
    var e, n := VolumeLabel(QueryFailed, t1), VolumeLabel(Output(text2), t2);
    assert e[3] == 'E' && n[3] == 'S';
  }

  // ---------------------------------------------------------------------
  // Folder names
  // ---------------------------------------------------------------------

  /** The web server's target folder, `${timestamp}_${cdLabel}`. */
  function LabelFolderName(timestamp: string, vol: string): string {
    timestamp + "_" + vol
  }

  lemma NoIllegalConcat(a: string, b: string)
    requires NoIllegal(a) && NoIllegal(b)
    ensures NoIllegal(a + b)
  {
  }

  lemma DigitsLegal(s: string)
    requires AllDigits(s)
    ensures NoIllegal(s)
  {
  }

  /** A timestamp holds only digits and one underscore, none of them illegal in a folder name. */
  lemma TimestampLegal(c: Clock)
    requires ValidClock(c)
    ensures NoIllegal(Timestamp(c))
  {
    TwoDigitsField(c.monthIndex + 1);
    TwoDigitsField(c.day);
    TwoDigitsField(c.hours);
    TwoDigitsField(c.minutes);
    TwoDigitsField(c.seconds);
    AllDigitsConcat3(NatToString(c.year), TwoDigits(c.monthIndex + 1), TwoDigits(c.day));
    AllDigitsConcat3(TwoDigits(c.hours), TwoDigits(c.minutes), TwoDigits(c.seconds));
    DigitsLegal(DatePart(c));
    DigitsLegal(TimePart(c));
    NoIllegalConcat(DatePart(c), "_");
    NoIllegalConcat(DatePart(c) + "_", TimePart(c));
  }

  /** The web server's folder name is never empty and never holds a character the label cleanup removes. */
  lemma LabelFolderSafe(c: Clock, q: QueryResult, nowMillis: nat)
    requires ValidClock(c)
    ensures |LabelFolderName(Timestamp(c), VolumeLabel(q, nowMillis))| > |Timestamp(c)| + 1
    ensures NoIllegal(LabelFolderName(Timestamp(c), VolumeLabel(q, nowMillis)))
  {
    TimestampLegal(c);
    FolderNameSafe(Timestamp(c), VolumeLabel(q, nowMillis));
  }

  lemma FolderNameSafe(timestamp: string, vol: string)
    requires NoIllegal(timestamp) && NoIllegal(vol) && vol != []
    ensures |LabelFolderName(timestamp, vol)| > |timestamp| + 1
    ensures NoIllegal(LabelFolderName(timestamp, vol))
  {
    NoIllegalConcat(timestamp, "_");
    NoIllegalConcat(timestamp + "_", vol);
  }

  /** The console copier's target folder, `${baseName}${counter}`. */
  function CounterFolderName(baseName: string, counter: nat): string {
    baseName + NatToString(counter)
  }

  /** The counter can be read back from the folder name. */
  lemma CounterFolderNameParts(baseName: string, counter: nat)
    ensures var name := CounterFolderName(baseName, counter);
      && name[..|baseName|] == baseName
      && |name| > |baseName|
      && AllDigits(name[|baseName|..])
      && DecimalValue(name[|baseName|..]) == counter
  {
    var name := CounterFolderName(baseName, counter);
    assert name[|baseName|..] == NatToString(counter);
    DecimalRoundTrip(counter);
  }

  /** Different counter values give different folder names under one base name. */
  lemma CounterNamesDistinct(baseName: string, m: nat, n: nat)
    requires m != n
    ensures CounterFolderName(baseName, m) != CounterFolderName(baseName, n)
  {
    CounterFolderNameParts(baseName, m);
    CounterFolderNameParts(baseName, n);
  }
}
