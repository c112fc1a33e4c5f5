/** The reader's lookup tables and the parsers of single MusicXML elements that depend on
    nothing but the element (mnxconverter/musicxml.py): note types, `<time>`, `<key>`,
    `<divisions>`, `<duration>`, `<clef>`, `<pitch>`, `<time-modification>`, `<ending>` and
    `<barline>`. Loops over child elements are methods proved equal to a fold of one step
    per child; the lemmas say what those folds compute. */
module MusicXmlFields {
  import opened Wrappers
  import opened Text
  import opened Fractions
  import opened MusicXmlTree
  import opened ScoreModel

  const INT_OF_NONE := "TypeError: int() argument must be a string, a bytes-like object or a real number, not 'NoneType'"

  /** Note type names to the (numerator, denominator) of their duration, non-standard
      spellings included. */
  const RHYTHM_TYPES: map<string, (int, int)> := map[
    "breve" := (2, 1), "whole" := (1, 1), "half" := (1, 2),
    "quarter" := (1, 4), "quater" := (1, 4),
    "eighth" := (1, 8), "eigth" := (1, 8), "quaver" := (1, 8), "8th" := (1, 8),
    "semiquaver" := (1, 16), "sixteenth" := (1, 16), "16th" := (1, 16),
    "32nd" := (1, 32), "32th" := (1, 32), "64th" := (1, 64), "128th" := (1, 128),
    "256th" := (1, 256), "512th" := (1, 512), "1024th" := (1, 1024)]

  const ACCIDENTAL_TYPES_FOR_IMPORT: map<string, int> := map[
    "sharp" := ACCIDENTAL_SHARP, "natural" := ACCIDENTAL_NATURAL, "flat" := ACCIDENTAL_FLAT,
    "double-sharp" := ACCIDENTAL_DOUBLE_SHARP, "sharp-sharp" := ACCIDENTAL_DOUBLE_SHARP,
    "flat-flat" := ACCIDENTAL_DOUBLE_FLAT, "natural-sharp" := ACCIDENTAL_NATURAL_SHARP,
    "natural-flat" := ACCIDENTAL_NATURAL_FLAT]

  const SLUR_SIDES_FOR_IMPORT: map<string, int> := map["above" := SIDE_UP, "below" := SIDE_DOWN]

  /** (size, type) to shift type; the non-standard size "16" is read as 15. */
  const OCTAVE_SHIFT_TYPES_FOR_IMPORT: map<(string, string), int> := map[
    ("8", "down") := TYPE_8VA, ("8", "up") := TYPE_8VB,
    ("15", "down") := TYPE_15MA, ("15", "up") := TYPE_15MB,
    ("16", "down") := TYPE_15MA, ("16", "up") := TYPE_15MB,
    ("22", "down") := TYPE_22MA, ("22", "up") := TYPE_22MB]

  const ENDING_TYPES_FOR_IMPORT: map<string, int> := map[
    "start" := ENDING_TYPE_START, "stop" := ENDING_TYPE_STOP, "discontinue" := ENDING_TYPE_DISCONTINUE]

  /** A leaf element with only text. */
  function Leaf(tag: string, text: string): Element {
    Element(tag, map[], Some(text), [])
  }

  /** `int(el.text)`: a missing text raises TypeError; None stands for ValueError. */
  function IntText(el: Element): Result<Option<int>> {
    match el.text
    case None => Err(InternalError(INT_OF_NONE))
    case Some(t) => Ok(ParseInt(t))
  }

  // ---------------------------------------------------------------------------------------
  // <type>

  /** `parse_type`: the table's fraction, reduced as `Fraction` reduces it; an unknown or
      missing name is a data error. */
  function ParseType(el: Element): (r: Result<Frac>)
    ensures r.Ok? <==> el.text.Some? && el.text.value in RHYTHM_TYPES
    ensures r.Ok? ==> (Canonical(r.value)
      && SameValue(r.value, Rational(RHYTHM_TYPES[el.text.value].0, RHYTHM_TYPES[el.text.value].1)))
    ensures r.Err? ==> r.failure.DataError?
  {
    match el.text
    case Some(t) =>
      if t in RHYTHM_TYPES then
        var (n, d) := RHYTHM_TYPES[t];
        Ok(Reduce(n, d))
      else Err(DataError("Unsupported <type> \"" + t + "\"."))
    case None => Err(DataError("Unsupported <type> \"None\"."))
  }

  /** Every note type is a power of two between 1/1024 and 2, already in lowest terms. */
  lemma RhythmTypeValues(name: string)
    requires name in RHYTHM_TYPES
    ensures var (n, d) := RHYTHM_TYPES[name];
      (n == 2 && d == 1) || (n == 1 && d in {1, 2, 4, 8, 16, 32, 64, 128, 256, 512, 1024})
  {
  }

  // ---------------------------------------------------------------------------------------
  // <divisions>, <duration>, <forward>/<backup>, <key>, <time>

  /** `parse_divisions`: unparsable text is a data error quoting the text; no text at all
      is the TypeError of `int(None)`, which the source does not catch. */
  function ParseDivisions(el: Element): (r: Result<int>)
    ensures el.text.None? ==> r == Err(InternalError(INT_OF_NONE))
    ensures el.text.Some? ==> (r.Ok? <==> ParseInt(el.text.value).Some?)
    ensures el.text.Some? && r.Err? ==> r.failure == DataError("Invalid <divisions> value \"" + el.text.value + "\".")
  {
    match el.text
    case None => Err(InternalError(INT_OF_NONE))
    case Some(t) =>
      match ParseInt(t)
      case None => Err(DataError("Invalid <divisions> value \"" + t + "\"."))
      case Some(n) => Ok(n)
  }

  /** `parse_duration`: unparsable text reads as 0, so only a missing text fails. */
  function ParseDuration(el: Element): (r: Result<int>)
    ensures r.Err? <==> el.text.None?
    ensures r.Err? ==> r.failure.InternalError?
    ensures r.Ok? && ParseInt(el.text.value).None? ==> r.value == 0
  {
    var v :- IntText(el);
    Ok(v.GetOr(0))
  }

  /** `parse_forward_backup`: the first `<duration>` child, or 0 without one. */
  function ParseForwardBackup(el: Element): (r: Result<int>)
    ensures FindChild(el, "duration").None? ==> r == Ok(0)
    ensures r.Err? <==> FindChild(el, "duration").Some? && FindChild(el, "duration").value.text.None?
  {
    match FindChild(el, "duration")
    case None => Ok(0)
    case Some(d) => ParseDuration(d)
  }

  /** Written decimal counts read back as themselves, for `<divisions>` and `<duration>`
      alike, and a `<forward>` or `<backup>` without `<duration>` moves by 0. */
  lemma CountsReadBack(n: int, tag: string, attrs: map<string, string>, children: seq<Element>)
    ensures ParseDivisions(Leaf(tag, IntToString(n))) == Ok(n)
    ensures ParseDuration(Leaf(tag, IntToString(n))) == Ok(n)
    ensures (forall j :: 0 <= j < |children| ==> children[j].tag != "duration") ==>
      ParseForwardBackup(Element(tag, attrs, None, children)) == Ok(0)
  {
    ParseIntOfIntToString(n);
  }

  /** `parse_key`: the `<fifths>` child as an integer; a missing child or unparsable text
      gives the default key 0, a child without text is an uncaught TypeError. */
  function ParseKey(el: Element): (r: Result<int>)
    ensures r.Err? <==> FindChild(el, "fifths").Some? && FindChild(el, "fifths").value.text.None?
    ensures r.Err? ==> r.failure.InternalError?
    ensures FindChild(el, "fifths").None? ==> r == Ok(DEFAULT_KEYSIG)
  {
    match FindChild(el, "fifths")
    case None => Ok(DEFAULT_KEYSIG)
    case Some(f) =>
      var v :- IntText(f);
      Ok(v.GetOr(DEFAULT_KEYSIG))
  }

  /** The `<key>` element that states `fifths`. */
  function KeyElement(fifths: int): Element {
    Element("key", map[], None, [Leaf("fifths", IntToString(fifths))])
  }

  /** Any key signature written as `<fifths>` reads back unchanged; a `<key>` without
      `<fifths>` reads as the default. */
  lemma KeyReadsBack(fifths: int, attrs: map<string, string>, children: seq<Element>)
    ensures ParseKey(KeyElement(fifths)) == Ok(fifths)
    ensures (forall j :: 0 <= j < |children| ==> children[j].tag != "fifths") ==>
      ParseKey(Element("key", attrs, None, children)) == Ok(DEFAULT_KEYSIG)
  {
    ParseIntOfIntToString(fifths);
    assert FindChild(KeyElement(fifths), "fifths") == Some(Leaf("fifths", IntToString(fifths)));
  }

  /** `int(time_el.find(tag).text)` with every failure caught: a missing child, a missing
      text and unparsable text all give None. */
  function ChildInt(el: Element, tag: string): Option<int> {
    match ChildText(el, tag)
    case None => None
    case Some(t) => ParseInt(t)
  }

  /** `el.find(tag).text`, None when there is no such child or it has no text. */
  function ChildText(el: Element, tag: string): Option<string> {
    match FindChild(el, tag)
    case None => None
    case Some(c) => c.text
  }

  /** `parse_time`: `[beats, beat-type]`; when either is missing or unparsable the element
      is 4/4 if `symbol="common"` and a data error otherwise. */
  function ParseTime(el: Element): (r: Result<TimeSig>)
    ensures r.Err? ==> r.failure.DataError?
    ensures r.Ok? <==> (ChildInt(el, "beats").Some? && ChildInt(el, "beat-type").Some?) || Attr(el, "symbol") == Some("common")
    ensures ChildInt(el, "beats").Some? && ChildInt(el, "beat-type").Some? ==>
      r == Ok(TimeSig(ChildInt(el, "beats").value, ChildInt(el, "beat-type").value))
  {
    var beats := ChildInt(el, "beats");
    var beatType := ChildInt(el, "beat-type");
    if beats.Some? && beatType.Some? then Ok(TimeSig(beats.value, beatType.value))
    else if Attr(el, "symbol") == Some("common") then Ok(TimeSig(4, 4))
    else Err(DataError("Invalid <time> element."))
  }

  function TimeElement(attrs: map<string, string>, beats: string, beatType: string): Element {
    Element("time", attrs, None, [Leaf("beats", beats), Leaf("beat-type", beatType)])
  }

  /** Counts that parse give the time signature they spell, whatever the symbol. */
  lemma TimeOfCounts(attrs: map<string, string>, beats: string, beatType: string)
    requires ParseInt(beats).Some? && ParseInt(beatType).Some?
    ensures ParseTime(TimeElement(attrs, beats, beatType)) == Ok(TimeSig(ParseInt(beats).value, ParseInt(beatType).value))
  {
    TimeElementCounts(attrs, beats, beatType);
  }

  lemma TimeElementCounts(attrs: map<string, string>, beats: string, beatType: string)
    ensures ChildText(TimeElement(attrs, beats, beatType), "beats") == Some(beats)
    ensures ChildText(TimeElement(attrs, beats, beatType), "beat-type") == Some(beatType)
  {
    var el := TimeElement(attrs, beats, beatType);
    ChildIntAt(el, 0, "beats", beats);
    assert el.children[0].tag != "beat-type";
    ChildIntAt(el, 1, "beat-type", beatType);
  }

  /** The first child with a tag decides `ChildText` for that tag. */
  lemma ChildIntAt(el: Element, i: nat, tag: string, text: string)
    requires i < |el.children| && el.children[i] == Leaf(tag, text)
    requires forall j :: 0 <= j < i ==> el.children[j].tag != tag
    ensures ChildText(el, tag) == Some(text)
  {
    assert IndexOfTag(el.children, tag) == Some(i);
  }

  /** Written beats and beat-type read back as the time signature. */
  lemma TimeReadsBack(attrs: map<string, string>, count: int, unit: int)
    ensures ParseTime(TimeElement(attrs, IntToString(count), IntToString(unit))) == Ok(TimeSig(count, unit))
  {
    ParseIntOfIntToString(count);
    ParseIntOfIntToString(unit);
    TimeOfCounts(attrs, IntToString(count), IntToString(unit));
  }

  /** When beats do not parse, the element is 4/4 with `symbol="common"` and a data error
      without it. */
  lemma CommonTimeFallback(attrs: map<string, string>, bad: string, beatType: string)
    requires ParseInt(bad).None?
    ensures var r := ParseTime(TimeElement(attrs, bad, beatType));
      if "symbol" in attrs && attrs["symbol"] == "common" then r == Ok(TimeSig(4, 4))
      else r == Err(DataError("Invalid <time> element."))
  {
    var el := TimeElement(attrs, bad, beatType);
    ChildIntAt(el, 0, "beats", bad);
  }

  // ---------------------------------------------------------------------------------------
  // <clef>

  /** One child of `<clef>`: a `<sign>` or `<line>` with text replaces the value so far. */
  function ClefStep(c: Clef, el: Element): Clef {
    if el.tag == "sign" && el.text.Some? then c.(sign := el.text)
    else if el.tag == "line" && el.text.Some? then c.(line := el.text)
    else c
  }

  /** `parse_clef`. */
  method ParseClef(el: Element) returns (c: Clef)
    ensures c == FoldChildren(Clef(None, None), el.children, ClefStep)
  {
    c := Clef(None, None);
    var i := 0;
    while i < |el.children|
      invariant 0 <= i <= |el.children|
      invariant c == FoldChildren(Clef(None, None), el.children[..i], ClefStep)
    {
      FoldChildrenStep(Clef(None, None), el.children, i, ClefStep);
      var child := el.children[i];
      if child.tag == "sign" {
        if child.text.Some? {
          c := c.(sign := child.text);
        }
      } else if child.tag == "line" {
        if child.text.Some? {
          c := c.(line := child.text);
        }
      }
      i := i + 1;
    }
    assert el.children[..i] == el.children;
  }

  /** The text of the last child with that tag and with text. */
  function LastText(cs: seq<Element>, tag: string): (r: Option<string>)
    ensures r.Some? ==> exists j :: 0 <= j < |cs| && cs[j].tag == tag && cs[j].text == r &&
                                    forall k :: j < k < |cs| ==> cs[k].tag != tag || cs[k].text.None?
    ensures r.None? <==> forall j :: 0 <= j < |cs| ==> cs[j].tag != tag || cs[j].text.None?
  {
    if cs == [] then None
    else
      var last := cs[|cs| - 1];
      if last.tag == tag && last.text.Some? then
        last.text
      else
        var r := LastText(cs[..|cs| - 1], tag);
        assert forall j :: 0 <= j < |cs| - 1 ==> cs[..|cs| - 1][j] == cs[j];
        r
  }

  /** A clef's sign and line are the last `<sign>` and `<line>` texts given. */
  lemma {:induction false} ClefIsLastTexts(cs: seq<Element>)
    ensures FoldChildren(Clef(None, None), cs, ClefStep) == Clef(LastText(cs, "sign"), LastText(cs, "line"))
  {
    if cs != [] {
      ClefIsLastTexts(cs[..|cs| - 1]);
    }
  }

  // ---------------------------------------------------------------------------------------
  // <pitch>

  datatype PitchFields = PitchFields(step: Option<string>, octave: Option<int>, alter: int)

  /** One child of `<pitch>`; the first bad `<alter>` or `<octave>` stops the loop. */
  function PitchStep(acc: Result<PitchFields>, el: Element): Result<PitchFields> {
    match acc
    case Err(_) => acc
    case Ok(f) =>
      if el.tag == "alter" then
        match el.text
        case None => Err(InternalError(INT_OF_NONE))
        case Some(t) =>
          match ParseInt(t)
          case None => Err(DataError("Invalid <alter> for <pitch>."))
          case Some(v) => Ok(f.(alter := v))
      else if el.tag == "octave" then
        match el.text
        case None => Err(InternalError(INT_OF_NONE))
        case Some(t) =>
          match ParseInt(t)
          case None => Err(DataError("Invalid <octave> for <pitch>."))
          case Some(v) => Ok(f.(octave := Some(v)))
      else if el.tag == "step" then Ok(f.(step := el.text))
      else acc
  }

  /** The checks after the loop of `parse_pitch`. */
  function PitchOf(fields: Result<PitchFields>): Result<Pitch> {
    var f :- fields;
    if f.step.None? then Err(DataError("Missing <step> for <pitch>."))
    else if f.octave.None? then Err(DataError("Missing <octave> for <pitch>."))
    else Ok(Pitch(f.step.value, f.octave.value, f.alter))
  }

  function PitchSpec(el: Element): Result<Pitch> {
    PitchOf(FoldChildren(Ok(PitchFields(None, None, 0)), el.children, PitchStep))
  }

  /** `parse_pitch`. */
  method ParsePitch(el: Element) returns (r: Result<Pitch>)
    ensures r == PitchSpec(el)
  {
    var init := Ok(PitchFields(None, None, 0));
    var step: Option<string> := None;
    var octave: Option<int> := None;
    var alter := 0;
    var i := 0;
    while i < |el.children|
      invariant 0 <= i <= |el.children|
      invariant FoldChildren(init, el.children[..i], PitchStep) == Ok(PitchFields(step, octave, alter))
    {
      FoldChildrenStep(init, el.children, i, PitchStep);
      var child := el.children[i];
      if child.tag == "alter" {
        if child.text.None? {
          FailedPitchStaysFailed(el.children, i + 1, init);
          return Err(InternalError(INT_OF_NONE));
        }
        var v := ParseInt(child.text.value);
        if v.None? {
          FailedPitchStaysFailed(el.children, i + 1, init);
          return Err(DataError("Invalid <alter> for <pitch>."));
        }
        alter := v.value;
      } else if child.tag == "octave" {
        if child.text.None? {
          FailedPitchStaysFailed(el.children, i + 1, init);
          return Err(InternalError(INT_OF_NONE));
        }
        var v := ParseInt(child.text.value);
        if v.None? {
          FailedPitchStaysFailed(el.children, i + 1, init);
          return Err(DataError("Invalid <octave> for <pitch>."));
        }
        octave := v;
      } else if child.tag == "step" {
        step := child.text;
      }
      i := i + 1;
    }
    assert el.children[..i] == el.children;
    if step.None? {
      return Err(DataError("Missing <step> for <pitch>."));
    }
    if octave.None? {
      return Err(DataError("Missing <octave> for <pitch>."));
    }
    return Ok(Pitch(step.value, octave.value, alter));
  }

  /** Once a child has failed, the later children leave the failure as it is. */
  lemma {:induction false} FailedPitchStaysFailed(cs: seq<Element>, i: nat, init: Result<PitchFields>)
    requires i <= |cs| && FoldChildren(init, cs[..i], PitchStep).Err?
    ensures FoldChildren(init, cs, PitchStep) == FoldChildren(init, cs[..i], PitchStep)
    decreases |cs| - i
  {
    if i < |cs| {
      FoldChildrenStep(init, cs, i, PitchStep);
      FailedPitchStaysFailed(cs, i + 1, init);
    } else {
      assert cs[..i] == cs;
    }
  }

  /** The `<pitch>` element that states `p`, children in the schema's order. */
  function PitchElement(p: Pitch): Element {
    Element("pitch", map[], None,
            [Leaf("step", p.step), Leaf("alter", IntToString(p.alter)), Leaf("octave", IntToString(p.octave))])
  }

  /** Any pitch written as step, alter and octave reads back unchanged. */
  lemma PitchReadsBack(p: Pitch)
    ensures PitchSpec(PitchElement(p)) == Ok(p)
  {
    var cs := PitchElement(p).children;
    var init := Ok(PitchFields(None, None, 0));
    var f1 := Ok(PitchFields(Some(p.step), None, 0));
    var f2 := Ok(PitchFields(Some(p.step), None, p.alter));
    var f3 := Ok(PitchFields(Some(p.step), Some(p.octave), p.alter));
    assert cs[..0] == [] && cs[..3] == cs;
    FoldChildrenStep(init, cs, 0, PitchStep);
    FoldChildrenStep(init, cs, 1, PitchStep);
    FoldChildrenStep(init, cs, 2, PitchStep);
    assert PitchStep(init, cs[0]) == f1;
    assert PitchStep(f1, cs[1]) == f2 by {
      ParseIntOfIntToString(p.alter);
    }
    assert PitchStep(f2, cs[2]) == f3 by {
      ParseIntOfIntToString(p.octave);
    }
  }

  /** A `<pitch>` without `<step>` or without `<octave>` child is a data error, unless an
      earlier child already failed. */
  lemma {:induction false} PitchNeedsStepAndOctave(cs: seq<Element>)
    ensures var f := FoldChildren(Ok(PitchFields(None, None, 0)), cs, PitchStep);
      f.Ok? ==> ((f.value.step.Some? ==> exists j :: 0 <= j < |cs| && cs[j].tag == "step")
                 && (f.value.octave.Some? ==> exists j :: 0 <= j < |cs| && cs[j].tag == "octave"))
  {
    if cs != [] {
      var init := Ok(PitchFields(None, None, 0));
      var front := cs[..|cs| - 1];
      PitchNeedsStepAndOctave(front);
      var f := FoldChildren(init, cs, PitchStep);
      var g := FoldChildren(init, front, PitchStep);
      if f.Ok? && g.Ok? {
        if f.value.step.Some? && cs[|cs| - 1].tag != "step" {
          var j :| 0 <= j < |front| && front[j].tag == "step";
          assert cs[j] == front[j];
        }
        if f.value.octave.Some? && cs[|cs| - 1].tag != "octave" {
          var j :| 0 <= j < |front| && front[j].tag == "octave";
          assert cs[j] == front[j];
        }
      }
    }
  }

  // ---------------------------------------------------------------------------------------
  // <time-modification>

  datatype TimeModFields = TimeModFields(actual: Option<int>, normal: Option<int>, normalType: Option<Frac>)

  /** One child of `<time-modification>`: the counts must be non-empty digit strings and
      `<normal-type>` a known note type; `<normal-dot>` is counted but never used. */
  function TimeModStep(acc: Result<TimeModFields>, el: Element): Result<TimeModFields> {
    match acc
    case Err(_) => acc
    case Ok(f) =>
      if el.tag == "actual-notes" then
        if el.text.Some? && IsDigitString(el.text.value) then Ok(f.(actual := ParseInt(el.text.value)))
        else Err(DataError("Invalid <actual-notes> for <time-modification>."))
      else if el.tag == "normal-notes" then
        if el.text.Some? && IsDigitString(el.text.value) then Ok(f.(normal := ParseInt(el.text.value)))
        else Err(DataError("Invalid <normal-notes> for <time-modification>."))
      else if el.tag == "normal-type" then
        var t :- ParseType(el);
        Ok(f.(normalType := Some(t)))
      else acc
  }

  /** The ratio built after the loop: the base type is `<normal-type>`, else the note's own
      type; a missing count is an uncaught TypeError. */
  function TupletRatioOf(fields: Result<TimeModFields>, noteType: Option<Frac>): Result<TupletRatio> {
    var f :- fields;
    if f.normalType.None? && noteType.None? then Err(DataError("<time-modification> must come after <type>."))
    else
      var t := if f.normalType.Some? then f.normalType.value else noteType.value;
      if f.normal.None? || f.actual.None? then
        Err(InternalError("TypeError: unsupported operand type(s) for *: 'NoneType' and 'int'"))
      else Ok(TupletRatio(f.normal.value * t.num, t.den, f.actual.value * t.num, t.den))
  }

  function TimeModificationSpec(el: Element, noteType: Option<Frac>): Result<TupletRatio> {
    TupletRatioOf(FoldChildren(Ok(TimeModFields(None, None, None)), el.children, TimeModStep), noteType)
  }

  /** `parse_time_modification`. */
  method ParseTimeModification(el: Element, noteType: Option<Frac>) returns (r: Result<TupletRatio>)
    ensures r == TimeModificationSpec(el, noteType)
  {
    var init := Ok(TimeModFields(None, None, None));
    var f := TimeModFields(None, None, None);
    var i := 0;
    while i < |el.children|
      invariant 0 <= i <= |el.children|
      invariant FoldChildren(init, el.children[..i], TimeModStep) == Ok(f)
    {
      FoldChildrenStep(init, el.children, i, TimeModStep);
      var next := ParseTimeModChild(f, el.children[i]);
      if next.Err? {
        FailedTimeModStaysFailed(el.children, i + 1, init);
        return Err(next.failure);
      }
      f := next.value;
      i := i + 1;
    }
    assert el.children[..i] == el.children;
    r := TupletRatioOf(Ok(f), noteType);
  }

  /** The body of `parse_time_modification`'s loop for one child. */
  method ParseTimeModChild(f: TimeModFields, child: Element) returns (r: Result<TimeModFields>)
    ensures r == TimeModStep(Ok(f), child)
  {
    if child.tag == "actual-notes" {
      if !(child.text.Some? && IsDigitString(child.text.value)) {
        return Err(DataError("Invalid <actual-notes> for <time-modification>."));
      }
      return Ok(f.(actual := ParseInt(child.text.value)));
    } else if child.tag == "normal-notes" {
      if !(child.text.Some? && IsDigitString(child.text.value)) {
        return Err(DataError("Invalid <normal-notes> for <time-modification>."));
      }
      return Ok(f.(normal := ParseInt(child.text.value)));
    } else if child.tag == "normal-type" {
      var t := ParseType(child);
      if t.Err? {
        return Err(t.failure);
      }
      return Ok(f.(normalType := Some(t.value)));
    }
    return Ok(f);
  }

  lemma {:induction false} FailedTimeModStaysFailed(cs: seq<Element>, i: nat, init: Result<TimeModFields>)
    requires i <= |cs| && FoldChildren(init, cs[..i], TimeModStep).Err?
    ensures FoldChildren(init, cs, TimeModStep) == FoldChildren(init, cs[..i], TimeModStep)
    decreases |cs| - i
  {
    if i < |cs| {
      FoldChildrenStep(init, cs, i, TimeModStep);
      FailedTimeModStaysFailed(cs, i + 1, init);
    } else {
      assert cs[..i] == cs;
    }
  }

  lemma CountsFold(actual: string, normal: string)
    requires IsDigitString(actual) && IsDigitString(normal)
    ensures FoldChildren(Ok(TimeModFields(None, None, None)), [Leaf("actual-notes", actual), Leaf("normal-notes", normal)], TimeModStep)
      == Ok(TimeModFields(Some(DigitsValue(actual) as int), Some(DigitsValue(normal) as int), None))
  {
    var cs := [Leaf("actual-notes", actual), Leaf("normal-notes", normal)];
    var init := Ok(TimeModFields(None, None, None));
    var f1 := Ok(TimeModFields(Some(DigitsValue(actual) as int), None, None));
    var f2 := Ok(TimeModFields(Some(DigitsValue(actual) as int), Some(DigitsValue(normal) as int), None));
    assert cs[..0] == [] && cs[..2] == cs;
    FoldChildrenStep(init, cs, 0, TimeModStep);
    FoldChildrenStep(init, cs, 1, TimeModStep);
    assert TimeModStep(init, cs[0]) == f1 by {
      ParseIntOfDigits(actual);
    }
    assert TimeModStep(f1, cs[1]) == f2 by {
      ParseIntOfDigits(normal);
    }
  }

  /** `actual` notes in the time of `normal` notes of type `t`: the outer duration is
      normal×t and the inner one actual×t, both over t's denominator, whatever the note's
      own type. */
  lemma TupletRatioOfNormalType(actual: string, normal: string, normalType: Element, noteType: Option<Frac>, t: Frac)
    requires IsDigitString(actual) && IsDigitString(normal)
    requires normalType.tag == "normal-type" && ParseType(normalType) == Ok(t)
    ensures var el := Element("time-modification", map[], None,
                              [Leaf("actual-notes", actual), Leaf("normal-notes", normal), normalType]);
      var a := DigitsValue(actual) as int;
      var n := DigitsValue(normal) as int;
      TimeModificationSpec(el, noteType) == Ok(TupletRatio(n * t.num, t.den, a * t.num, t.den))
  {
    var counts := [Leaf("actual-notes", actual), Leaf("normal-notes", normal)];
    assert counts + [normalType] == [Leaf("actual-notes", actual), Leaf("normal-notes", normal), normalType];
    TimeModFieldsOf(actual, normal, [normalType], t);
  }

  /** Without `<normal-type>` the note's own type is the base, and with neither it is a data
      error. */
  lemma TupletRatioOfNoteType(actual: string, normal: string, noteType: Option<Frac>)
    requires IsDigitString(actual) && IsDigitString(normal)
    ensures var el := Element("time-modification", map[], None,
                              [Leaf("actual-notes", actual), Leaf("normal-notes", normal)]);
      var a := DigitsValue(actual) as int;
      var n := DigitsValue(normal) as int;
      var r := TimeModificationSpec(el, noteType);
      if noteType.Some? then
        r == Ok(TupletRatio(n * noteType.value.num, noteType.value.den, a * noteType.value.num, noteType.value.den))
      else r == Err(DataError("<time-modification> must come after <type>."))
  {
    CountsFold(actual, normal);
  }

  /** The fields the loop of `parse_time_modification` collects from the two counts and an
      optional `<normal-type>`. */
  lemma TimeModFieldsOf(actual: string, normal: string, normalType: seq<Element>, t: Frac)
    requires IsDigitString(actual) && IsDigitString(normal)
    requires normalType == [] || (|normalType| == 1 && normalType[0].tag == "normal-type" && ParseType(normalType[0]) == Ok(t))
    ensures FoldChildren(Ok(TimeModFields(None, None, None)),
                         [Leaf("actual-notes", actual), Leaf("normal-notes", normal)] + normalType, TimeModStep)
      == Ok(TimeModFields(Some(DigitsValue(actual) as int), Some(DigitsValue(normal) as int),
                          if normalType == [] then None else Some(t)))
  {
    var counts := [Leaf("actual-notes", actual), Leaf("normal-notes", normal)];
    var cs := counts + normalType;
    var init := Ok(TimeModFields(None, None, None));
    CountsFold(actual, normal);
    if normalType == [] {
      assert cs == counts;
    } else {
      assert cs[..2] == counts && cs[..3] == cs;
      FoldChildrenStep(init, cs, 2, TimeModStep);
      var f2 := TimeModFields(Some(DigitsValue(actual) as int), Some(DigitsValue(normal) as int), None);
      assert TimeModStep(Ok(f2), cs[2]) == Ok(f2.(normalType := Some(t)));
    }
  }

  /** A count that is not a non-empty digit string is a data error. */
  lemma TupletCountMustBeDigits(text: Option<string>, noteType: Option<Frac>)
    requires text.None? || !IsDigitString(text.value)
    ensures var el := Element("time-modification", map[], None, [Element("actual-notes", map[], text, [])]);
      TimeModificationSpec(el, noteType) == Err(DataError("Invalid <actual-notes> for <time-modification>."))
  {
    var cs := [Element("actual-notes", map[], text, [])];
    var init := Ok(TimeModFields(None, None, None));
    FoldChildrenStep(init, cs, 0, TimeModStep);
    assert cs[..1] == cs;
    assert cs[..0] == [];
    assert FoldChildren(init, cs, TimeModStep) == Err(DataError("Invalid <actual-notes> for <time-modification>."));
  }

  // ---------------------------------------------------------------------------------------
  // <ending>, <barline>

  /** `int(n)` for the pieces that are digit strings after stripping. */
  function DigitTokens(pieces: seq<string>): (r: seq<int>)
    ensures forall i :: 0 <= i < |r| ==> r[i] >= 0
  {
    if pieces == [] then []
    else
      var p := pieces[0];
      var head := if IsDigitString(Strip(p)) then ParseInt(p) else None;
      (if head.Some? && head.value >= 0 then [head.value] else []) + DigitTokens(pieces[1..])
  }

  /** The ending numbers of `<ending number="...">`: the comma- or space-separated tokens that
      are digit strings, as integers. */
  function EndingNumbers(s: string): (r: seq<int>)
    ensures forall i :: 0 <= i < |r| ==> r[i] >= 0
  {
    DigitTokens(SplitOnSeparators(s))
  }

  /** `parse_ending`: a start records its numbers only when there is at least one; a stop
      or discontinue records its type without numbers; anything else changes nothing. */
  function ParseEnding(el: Element, bar: Bar): (r: Bar)
    ensures r.(startEnding := bar.startEnding, stopEnding := bar.stopEnding) == bar
    ensures r.startEnding != bar.startEnding ==>
      Attr(el, "type") == Some("start") && "number" in el.attrs
      && r.startEnding == Some(Ending(ENDING_TYPE_START, Some(EndingNumbers(el.attrs["number"]))))
      && EndingNumbers(el.attrs["number"]) != []
    ensures r.stopEnding != bar.stopEnding ==> Attr(el, "type") in {Some("stop"), Some("discontinue")}
  {
    var endingType := Attr(el, "type");
    if endingType == Some("start") then
      if "number" in el.attrs then
        var numbers := EndingNumbers(el.attrs["number"]);
        if numbers != [] then bar.(startEnding := Some(Ending(ENDING_TYPES_FOR_IMPORT["start"], Some(numbers))))
        else bar
      else bar
    else if endingType == Some("stop") || endingType == Some("discontinue") then
      bar.(stopEnding := Some(Ending(ENDING_TYPES_FOR_IMPORT[endingType.value], None)))
    else bar
  }

  predicate NoSeparators(s: string) {
    forall j :: 0 <= j < |s| ==> !IsListSeparator(s[j])
  }

  lemma {:induction false} SplitFromDigits(d: string, rest: string, current: string)
    requires NoSeparators(current) && AllDigits(d)
    ensures NoSeparators(current + d) && SplitFrom(d + rest, current) == SplitFrom(rest, current + d)
    decreases |d|
  {
    if d == [] {
      assert d + rest == rest && current + d == current;
    } else {
      assert (d + rest)[0] == d[0] && (d + rest)[1..] == d[1..] + rest;
      assert NoSeparators(current + [d[0]]);
      SplitFromDigits(d[1..], rest, current + [d[0]]);
      assert current + [d[0]] + d[1..] == current + d;
    }
  }

  /** The decimal forms of a list of numbers. */
  function DecimalForms(ns: seq<int>): (r: seq<string>)
    ensures |r| == |ns| && forall i :: 0 <= i < |ns| ==> r[i] == IntToString(ns[i])
  {
    if ns == [] then [] else [IntToString(ns[0])] + DecimalForms(ns[1..])
  }

  /** A digit string alone is one piece. */
  lemma SplitOfDigits(d: string)
    requires AllDigits(d)
    ensures SplitFrom(d, "") == [d]
  {
    SplitFromDigits(d, "", "");
    assert d + "" == d && "" + d == d;
  }

  lemma SkipComma(rest: string)
    requires rest != [] && IsDigit(rest[0])
    ensures SkipSeparators("," + rest) == rest
  {
    var s := "," + rest;
    assert s[1..] == rest;
    assert !IsListSeparator(rest[0]);
  }

  lemma SplitAtComma(rest: string, current: string)
    requires NoSeparators(current) && rest != [] && IsDigit(rest[0])
    ensures SplitFrom("," + rest, current) == [current] + SplitFrom(rest, "")
  {
    SkipComma(rest);
  }

  /** A digit string, a comma and a rest starting with a digit split into the digit string
      and the pieces of the rest. */
  lemma SplitOfDigitsComma(d: string, rest: string)
    requires AllDigits(d) && rest != [] && IsDigit(rest[0])
    ensures SplitFrom(d + ("," + rest), "") == [d] + SplitFrom(rest, "")
  {
    SplitFromDigits(d, "," + rest, "");
    assert "" + d == d;
    SplitAtComma(rest, d);
  }

  /** Splitting the comma-joined decimal forms of natural numbers gives those forms back. */
  lemma {:induction false} SplitOfJoined(ns: seq<int>)
    requires forall i :: 0 <= i < |ns| ==> ns[i] >= 0
    requires ns != []
    ensures SplitOnSeparators(JoinWithCommas(ns)) == DecimalForms(ns)
  {
    var d := IntToString(ns[0]);
    assert d == NatToString(ns[0]);
    assert DecimalForms(ns) == [d] + DecimalForms(ns[1..]);
    if |ns| == 1 {
      SplitOfDigits(d);
    } else {
      var rest := JoinWithCommas(ns[1..]);
      assert JoinWithCommas(ns) == d + ("," + rest);
      SplitOfJoined(ns[1..]);
      JoinStartsWithDigit(ns[1..]);
      SplitOfDigitsComma(d, rest);
    }
  }

  lemma JoinStartsWithDigit(ns: seq<int>)
    requires ns != [] && ns[0] >= 0
    ensures var s := JoinWithCommas(ns); s != [] && IsDigit(s[0])
  {
    assert IntToString(ns[0]) == NatToString(ns[0]);
  }

  /** Pieces that are digit tokens, each reading back as its number, give those numbers. */
  lemma {:induction false} DigitTokensOfReadBack(pieces: seq<string>, ns: seq<int>)
    requires |pieces| == |ns|
    requires forall i :: 0 <= i < |ns| ==> ns[i] >= 0 && IsDigitString(Strip(pieces[i])) && ParseInt(pieces[i]) == Some(ns[i])
    ensures DigitTokens(pieces) == ns
  {
    if pieces != [] {
      DigitTokensStep(pieces, ns[0]);
      DigitTokensOfReadBack(pieces[1..], ns[1..]);
      assert ns == [ns[0]] + ns[1..];
    }
  }

  lemma DigitTokensOfNumbers(ns: seq<int>)
    requires forall i :: 0 <= i < |ns| ==> ns[i] >= 0
    ensures DigitTokens(DecimalForms(ns)) == ns
  {
    var forms := DecimalForms(ns);
    forall i | 0 <= i < |ns|
      ensures IsDigitString(Strip(forms[i])) && ParseInt(forms[i]) == Some(ns[i])
    {
      DecimalFormReadsBack(ns[i]);
    }
    DigitTokensOfReadBack(forms, ns);
  }

  /** A first piece that is a digit token contributes its number. */
  lemma DigitTokensStep(pieces: seq<string>, n: int)
    requires pieces != [] && IsDigitString(Strip(pieces[0])) && ParseInt(pieces[0]) == Some(n) && n >= 0
    ensures DigitTokens(pieces) == [n] + DigitTokens(pieces[1..])
  {
  }

  /** The decimal form of a natural number is one digit token, which reads back as it. */
  lemma DecimalFormReadsBack(n: int)
    requires n >= 0
    ensures IsDigitString(Strip(IntToString(n))) && ParseInt(IntToString(n)) == Some(n)
  {
    var p := IntToString(n);
    assert p == NatToString(n);
    StripOfSpaceless(p);
    ParseIntOfDigits(p);
  }

  /** Ending numbers written as `','.join(str(n) ...)` read back as the same numbers. */
  lemma EndingNumbersReadBack(ns: seq<int>)
    requires forall i :: 0 <= i < |ns| ==> ns[i] >= 0
    ensures EndingNumbers(JoinWithCommas(ns)) == ns
  {
    if ns == [] {
      assert SplitFrom("", "") == [""];
      assert !IsDigitString(Strip(""));
    } else {
      SplitOfJoined(ns);
      DigitTokensOfNumbers(ns);
    }
  }

  /** One child of `<barline>`. */
  function BarlineStep(acc: Result<Bar>, el: Element): Result<Bar> {
    match acc
    case Err(_) => acc
    case Ok(bar) =>
      if el.tag == "ending" then Ok(ParseEnding(el, bar))
      else if el.tag == "repeat" then
        match Attr(el, "direction")
        case None => Err(DataError("<repeat> missing 'direction' attribute."))
        case Some(direction) =>
          if direction == "forward" then Ok(bar.(startRepeat := true))
          else if direction == "backward" then Ok(bar.(endRepeat := RepeatTimes(el)))
          else acc
      else acc
  }

  /** The `times` of a backward repeat, 2 when missing or unparsable. */
  function RepeatTimes(el: Element): int {
    match Attr(el, "times")
    case None => 2
    case Some(t) => ParseInt(t).GetOr(2)
  }

  function BarlineSpec(el: Element, bar: Bar): Result<Bar> {
    FoldChildren(Ok(bar), el.children, BarlineStep)
  }

  /** A barline edits the bar's own fields and never its bar parts. */
  lemma {:induction false} BarlineKeepsBarParts(bar: Bar, cs: seq<Element>)
    requires FoldChildren(Ok(bar), cs, BarlineStep).Ok?
    ensures FoldChildren(Ok(bar), cs, BarlineStep).value.barParts == bar.barParts
  {
    if cs != [] {
      BarlineKeepsBarParts(bar, cs[..|cs| - 1]);
    }
  }

  /** `parse_barline`, on the bar as a value. */
  method ParseBarline(el: Element, bar: Bar) returns (r: Result<Bar>)
    ensures r == BarlineSpec(el, bar)
  {
    var b := bar;
    var i := 0;
    while i < |el.children|
      invariant 0 <= i <= |el.children|
      invariant FoldChildren(Ok(bar), el.children[..i], BarlineStep) == Ok(b)
    {
      FoldChildrenStep(Ok(bar), el.children, i, BarlineStep);
      var child := el.children[i];
      if child.tag == "ending" {
        b := ParseEnding(child, b);
      } else if child.tag == "repeat" {
        if "direction" !in child.attrs {
          FailedBarlineStaysFailed(el.children, i + 1, bar);
          return Err(DataError("<repeat> missing 'direction' attribute."));
        }
        var direction := child.attrs["direction"];
        if direction == "forward" {
          b := b.(startRepeat := true);
        } else if direction == "backward" {
          b := b.(endRepeat := RepeatTimes(child));
        }
      }
      i := i + 1;
    }
    assert el.children[..i] == el.children;
    return Ok(b);
  }

  lemma {:induction false} FailedBarlineStaysFailed(cs: seq<Element>, i: nat, bar: Bar)
    requires i <= |cs| && FoldChildren(Ok(bar), cs[..i], BarlineStep).Err?
    ensures FoldChildren(Ok(bar), cs, BarlineStep) == FoldChildren(Ok(bar), cs[..i], BarlineStep)
    decreases |cs| - i
  {
    if i < |cs| {
      FoldChildrenStep(Ok(bar), cs, i, BarlineStep);
      FailedBarlineStaysFailed(cs, i + 1, bar);
    } else {
      assert cs[..i] == cs;
    }
  }

  predicate IsRepeat(el: Element, direction: string) {
    el.tag == "repeat" && Attr(el, "direction") == Some(direction)
  }

  /** A barline fails exactly when one of its `<repeat>`s has no direction, and then with a
      data error. */
  lemma {:induction false} BarlineFails(cs: seq<Element>, bar: Bar)
    ensures var r := FoldChildren(Ok(bar), cs, BarlineStep);
      && (r.Err? <==> exists j :: 0 <= j < |cs| && cs[j].tag == "repeat" && "direction" !in cs[j].attrs)
      && (r.Err? ==> r.failure.DataError?)
  {
    if cs != [] {
      var front := cs[..|cs| - 1];
      BarlineFails(front, bar);
      assert forall j :: 0 <= j < |front| ==> front[j] == cs[j];
    }
  }

  /** A forward repeat anywhere in the barline sets the start-repeat flag; without one it
      keeps its value. */
  lemma {:induction false} BarlineForwardRepeat(cs: seq<Element>, bar: Bar)
    ensures var r := FoldChildren(Ok(bar), cs, BarlineStep);
      r.Ok? ==> r.value.startRepeat == (bar.startRepeat || exists j :: 0 <= j < |cs| && IsRepeat(cs[j], "forward"))
  {
    if cs != [] {
      var front := cs[..|cs| - 1];
      BarlineForwardRepeat(front, bar);
      assert forall j :: 0 <= j < |front| ==> front[j] == cs[j];
    }
  }

  /** The end-repeat count is the `times` of the last backward repeat, or what it was when
      the barline has none. */
  lemma {:induction false} BarlineBackwardRepeat(cs: seq<Element>, bar: Bar)
    ensures var r := FoldChildren(Ok(bar), cs, BarlineStep);
      && (r.Ok? ==> (forall j :: 0 <= j < |cs| ==> !IsRepeat(cs[j], "backward")) ==> r.value.endRepeat == bar.endRepeat)
      && (r.Ok? ==> forall j :: 0 <= j < |cs| && IsRepeat(cs[j], "backward") ==>
            (forall k :: j < k < |cs| ==> !IsRepeat(cs[k], "backward")) ==> r.value.endRepeat == RepeatTimes(cs[j]))
  {
    if cs != [] {
      var front := cs[..|cs| - 1];
      BarlineBackwardRepeat(front, bar);
      assert forall j :: 0 <= j < |front| ==> front[j] == cs[j];
    }
  }

  /** Nothing but the repeat and ending fields of the bar changes. */
  lemma {:induction false} BarlineKeepsOtherFields(cs: seq<Element>, bar: Bar)
    ensures var r := FoldChildren(Ok(bar), cs, BarlineStep);
      r.Ok? ==> r.value.(startRepeat := bar.startRepeat, endRepeat := bar.endRepeat,
                         startEnding := bar.startEnding, stopEnding := bar.stopEnding) == bar
  {
    if cs != [] {
      BarlineKeepsOtherFields(cs[..|cs| - 1], bar);
    }
  }
}
