/** The MNX-Common writer (mnxconverter/mnx_common.py): the export tables, the string
    micro-syntaxes for durations, pitches, time signatures and key signatures, and the
    projection of the score graph onto an XML element tree. The model stops at the element
    value: serialising it is left to the XML library.

    Every micro-syntax has a reader beside it, and a lemma says the reader gives back what the
    writer was given. */
module MnxCommon {
  import opened Wrappers
  import opened Text
  import opened Fractions
  import opened ScoreModel
  import MusicXmlFields

  /** An XML element: its tag, its attributes (whose order XML leaves without meaning), its
      text (None when it has none) and its child elements in document order. */
  datatype Xml = Xml(tag: string, attrs: map<string, string>, text: Option<string>,
                     children: seq<Xml>)

  /** An element with attributes only. */
  function Leaf(tag: string, attrs: map<string, string>): Xml {
    Xml(tag, attrs, None, [])
  }

  /** `el.attrib.get(name)`. */
  function AttrValue(x: Xml, name: string): Option<string> {
    if name in x.attrs then Some(x.attrs[name]) else None
  }

  /** Applies `f` to each element in turn, as the writers' loops do; the first failure ends
      the loop. */
  function MapOk<A, B>(xs: seq<A>, f: A -> Result<B>): (r: Result<seq<B>>)
    ensures r.Ok? <==> forall i :: 0 <= i < |xs| ==> f(xs[i]).Ok?
    ensures r.Ok? ==> |r.value| == |xs| && forall i :: 0 <= i < |xs| ==> f(xs[i]) == Ok(r.value[i])
  {
    if xs == [] then Ok([])
    else
      var x :- f(xs[0]);
      var rest :- MapOk(xs[1..], f);
      assert forall i :: 0 < i < |xs| ==> xs[i] == xs[1..][i - 1];
      Ok([x] + rest)
  }

  /** Mapping over two lists one after the other maps over their concatenation. */
  lemma MapOkAppend<A, B>(a: seq<A>, b: seq<A>, f: A -> Result<B>)
    requires MapOk(a, f).Ok? && MapOk(b, f).Ok?
    ensures MapOk(a + b, f) == Ok(MapOk(a, f).value + MapOk(b, f).value)
  {
    var ab := a + b;
    MapOkOfAppendOk(a, b, f);
    var ra, rb, r := MapOk(a, f).value, MapOk(b, f).value, MapOk(ab, f).value;
    forall i | 0 <= i < |ab|
      ensures r[i] == (ra + rb)[i]
    {
      if i < |a| {
        assert ab[i] == a[i] && f(a[i]) == Ok(ra[i]);
      } else {
        assert ab[i] == b[i - |a|] && f(b[i - |a|]) == Ok(rb[i - |a|]);
      }
    }
    assert r == ra + rb;
  }

  lemma MapOkOfAppendOk<A, B>(a: seq<A>, b: seq<A>, f: A -> Result<B>)
    requires MapOk(a, f).Ok? && MapOk(b, f).Ok?
    ensures MapOk(a + b, f).Ok? && |MapOk(a + b, f).value| == |a| + |b|
  {
    var ab := a + b;
    forall i | 0 <= i < |ab|
      ensures f(ab[i]).Ok?
    {
      if i < |a| {
        assert ab[i] == a[i];
      } else {
        assert ab[i] == b[i - |a|];
      }
    }
  }

  // ---------------------------------------------------------------------------------------
  // Export tables

  const ACCIDENTAL_TYPES_FOR_EXPORT: map<int, string> := map[
    ACCIDENTAL_SHARP := "sharp", ACCIDENTAL_NATURAL := "natural", ACCIDENTAL_FLAT := "flat",
    ACCIDENTAL_DOUBLE_SHARP := "double-sharp", ACCIDENTAL_DOUBLE_FLAT := "double-flat",
    ACCIDENTAL_NATURAL_SHARP := "natural-sharp", ACCIDENTAL_NATURAL_FLAT := "natural-flat"]

  const SLUR_SIDES_FOR_EXPORT: map<int, string> := map[SIDE_UP := "up", SIDE_DOWN := "down"]

  const OCTAVE_SHIFT_TYPES_FOR_EXPORT: map<int, string> := map[
    TYPE_8VA := "-8", TYPE_8VB := "8", TYPE_15MA := "-15", TYPE_15MB := "15",
    TYPE_22MA := "-22", TYPE_22MB := "22"]

  const ENDING_TYPES_FOR_EXPORT: map<int, string> := map[
    ENDING_TYPE_START := "start", ENDING_TYPE_STOP := "stop",
    ENDING_TYPE_DISCONTINUE := "discontinue"]

  const SLUR_INCOMPLETE_LOCATIONS_FOR_EXPORT: map<int, string> := map[
    INCOMPLETE_TYPE_INCOMING := "incoming", INCOMPLETE_TYPE_OUTGOING := "outgoing"]

  /** `table[key]`, where a missing key raises KeyError. */
  function Lookup(table: map<int, string>, key: int): (r: Result<string>)
    ensures r.Ok? <==> key in table
    ensures r.Ok? ==> r.value == table[key]
  {
    if key in table then Ok(table[key]) else Err(InternalError("KeyError: " + IntToString(key)))
  }

  /** Every accidental the reader imports is exported, and every exported name but one reads
      back as the same code: the double flat is exported as "double-flat", a name the reader
      does not know, while the reader's own name for it is "flat-flat". */
  lemma AccidentalTablesAgree()
    ensures forall name :: name in MusicXmlFields.ACCIDENTAL_TYPES_FOR_IMPORT ==>
      MusicXmlFields.ACCIDENTAL_TYPES_FOR_IMPORT[name] in ACCIDENTAL_TYPES_FOR_EXPORT
    ensures forall code :: code in ACCIDENTAL_TYPES_FOR_EXPORT && code != ACCIDENTAL_DOUBLE_FLAT ==>
      && ACCIDENTAL_TYPES_FOR_EXPORT[code] in MusicXmlFields.ACCIDENTAL_TYPES_FOR_IMPORT
      && MusicXmlFields.ACCIDENTAL_TYPES_FOR_IMPORT[ACCIDENTAL_TYPES_FOR_EXPORT[code]] == code
    ensures ACCIDENTAL_TYPES_FOR_EXPORT[ACCIDENTAL_DOUBLE_FLAT] !in MusicXmlFields.ACCIDENTAL_TYPES_FOR_IMPORT
  {
  }

  /** A MusicXML octave shift of a given size and direction is exported as the size, read as
      15 for "16", negated when the notes sound higher than written (`down`). */
  lemma OctaveShiftTablesAgree()
    ensures forall key :: key in MusicXmlFields.OCTAVE_SHIFT_TYPES_FOR_IMPORT ==>
      && MusicXmlFields.OCTAVE_SHIFT_TYPES_FOR_IMPORT[key] in OCTAVE_SHIFT_TYPES_FOR_EXPORT
      && OCTAVE_SHIFT_TYPES_FOR_EXPORT[MusicXmlFields.OCTAVE_SHIFT_TYPES_FOR_IMPORT[key]] ==
           (if key.1 == "down" then "-" else "") + (if key.0 == "16" then "15" else key.0)
  {
  }

  /** Slur sides and ending types export under names that import back as the same code. */
  lemma SideAndEndingTablesAgree()
    ensures forall code :: code in SLUR_SIDES_FOR_EXPORT <==>
      code in MusicXmlFields.SLUR_SIDES_FOR_IMPORT.Values
    ensures forall code :: code in ENDING_TYPES_FOR_EXPORT ==>
      && ENDING_TYPES_FOR_EXPORT[code] in MusicXmlFields.ENDING_TYPES_FOR_IMPORT
      && MusicXmlFields.ENDING_TYPES_FOR_IMPORT[ENDING_TYPES_FOR_EXPORT[code]] == code
  {
    assert MusicXmlFields.SLUR_SIDES_FOR_IMPORT["above"] == SIDE_UP;
    assert MusicXmlFields.SLUR_SIDES_FOR_IMPORT["below"] == SIDE_DOWN;
  }

  // ---------------------------------------------------------------------------------------
  // "N/D" forms: microformat_timesig and the tuplet ratios

  /** `f'{a}/{b}'`. */
  function SlashForm(a: int, b: int): string {
    IntToString(a) + "/" + IntToString(b)
  }

  function IndexOf(s: string, c: char): (r: Option<nat>)
    ensures r.Some? ==> r.value < |s| && s[r.value] == c
    ensures r.Some? ==> forall j :: 0 <= j < r.value ==> s[j] != c
    ensures r.None? ==> forall j :: 0 <= j < |s| ==> s[j] != c
  {
    if s == [] then None
    else if s[0] == c then Some(0)
    else
      match IndexOf(s[1..], c)
      case None => None
      case Some(k) => Some(k + 1)
  }

  /** Reads an "N/D" form: the integers before and after the first slash. */
  function ReadSlashForm(s: string): Option<(int, int)> {
    match IndexOf(s, '/')
    case None => None
    case Some(k) =>
      match (ParseInt(s[..k]), ParseInt(s[k + 1..]))
      case (Some(a), Some(b)) => Some((a, b))
      case _ => None
  }

  /** The printed form of an integer is a minus sign and digits. */
  lemma IntToStringChars(i: int)
    ensures forall j :: 0 <= j < |IntToString(i)| ==>
      IntToString(i)[j] == '-' || IsDigit(IntToString(i)[j])
  {
    if i < 0 {
      var d := NatToString(-i);
      assert forall j :: 0 < j < |IntToString(i)| ==> IntToString(i)[j] == d[j - 1];
    }
  }

  /** `f'{a}/{b}'` reads back as `(a, b)`. */
  lemma SlashFormReadsBack(a: int, b: int)
    ensures ReadSlashForm(SlashForm(a, b)) == Some((a, b))
  {
    SlashFormSplits(a, b);
    ParseIntOfIntToString(a);
    ParseIntOfIntToString(b);
  }

  /** The first slash of `f'{a}/{b}'` separates the two printed numbers. */
  lemma SlashFormSplits(a: int, b: int)
    ensures var s, k := SlashForm(a, b), |IntToString(a)|;
      && IndexOf(s, '/') == Some(k)
      && s[..k] == IntToString(a)
      && s[k + 1..] == IntToString(b)
  {
    var s := SlashForm(a, b);
    var k := |IntToString(a)|;
    IntToStringChars(a);
    assert s[k] == '/';
    assert forall j :: 0 <= j < k ==> s[j] == IntToString(a)[j];
    FirstIndexOf(s, '/', k);
    assert s[..k] == IntToString(a);
    assert s[k + 1..] == IntToString(b);
  }

  /** `IndexOf` finds the first occurrence. */
  lemma FirstIndexOf(s: string, c: char, k: nat)
    requires k < |s| && s[k] == c
    requires forall j :: 0 <= j < k ==> s[j] != c
    ensures IndexOf(s, c) == Some(k)
  {
    var r := IndexOf(s, c);
    assert r.Some?;
    assert !(r.value < k) && !(k < r.value);
  }

  /** `microformat_timesig`: count and unit as "N/D". */
  function MicroformatTimesig(t: TimeSig): string {
    SlashForm(t.count, t.unit)
  }

  /** A written time signature reads back as its count and unit. */
  lemma TimesigReadsBack(t: TimeSig)
    ensures ReadSlashForm(MicroformatTimesig(t)) == Some((t.count, t.unit))
  {
    SlashFormReadsBack(t.count, t.unit);
  }

  /** `microformat_keysig`: the decimal number of fifths. */
  function MicroformatKeysig(k: int): string {
    IntToString(k)
  }

  /** A written key signature reads back as its number of fifths. */
  lemma KeysigReadsBack(k: int)
    ensures ParseInt(MicroformatKeysig(k)) == Some(k)
  {
    ParseIntOfIntToString(k);
  }

  // ---------------------------------------------------------------------------------------
  // microformat_duration

  /** The number of copies of `c` that end `s`. */
  function TrailingCount(s: string, c: char): (k: nat)
    ensures k <= |s|
  {
    if s != [] && s[|s| - 1] == c then TrailingCount(s[..|s| - 1], c) + 1 else 0
  }

  lemma {:induction false} TrailingCountOfRepeat(x: string, c: char, k: nat)
    requires x != [] && x[|x| - 1] != c
    ensures TrailingCount(x + Repeat(c, k), c) == k
  {
    if k > 0 {
      var s := x + Repeat(c, k);
      assert s[..|s| - 1] == x + Repeat(c, k - 1);
      TrailingCountOfRepeat(x, c, k - 1);
    }
  }

  /** `microformat_duration`: a fraction above 1 must be a whole number N and gives `*N`;
      one at most 1 must be 1/D and gives `/D`; each dot adds a `d`. A fraction is judged
      in lowest terms, as `Fraction` keeps it, and a missing one fails at the comparison. */
  function MicroformatDuration(d: RhythmicDuration): Result<string> {
    match d.frac
    case None => Err(InternalError("TypeError: '>' not supported between instances of 'NoneType' and 'int'"))
    case Some(f) =>
      var g := Reduce(f.num, f.den);
      if g.num > g.den then
        if g.den != 1 then Err(InternalError("ValueError: Invalid duration fraction"))
        else Ok("*" + IntToString(g.num) + Repeat('d', d.dots))
      else if g.num != 1 then Err(InternalError("ValueError: Invalid duration fraction"))
      else Ok("/" + IntToString(g.den) + Repeat('d', d.dots))
  }

  /** Reads the duration micro-syntax back: `*N` or `/D` (D positive), then one `d` per dot. */
  function ReadDuration(s: string): Option<(Frac, nat)> {
    var k := TrailingCount(s, 'd');
    var body := s[..|s| - k];
    if |body| >= 2 && (body[0] == '*' || body[0] == '/') && IsDigitString(body[1..]) then
      var n := DigitsValue(body[1..]);
      if body[0] == '*' then Some((FromInt(n), k))
      else if n > 0 then Some((Rational(1, n), k))
      else None
    else None
  }

  /** A fraction already in lowest terms is its own reduced form. */
  lemma ReduceOfCanonical(f: Frac)
    requires Canonical(f)
    ensures Reduce(f.num, f.den) == f
  {
  }

  /** Which durations have a micro-syntax: none without a fraction, and among fractions in
      lowest terms exactly the whole numbers above 1 and the unit fractions. */
  lemma DurationFailsExactly(d: RhythmicDuration)
    requires d.frac.Some? ==> Canonical(d.frac.value)
    ensures MicroformatDuration(d).Ok? <==>
      && d.frac.Some?
      && (d.frac.value.num > d.frac.value.den ==> d.frac.value.den == 1)
      && (d.frac.value.num <= d.frac.value.den ==> d.frac.value.num == 1)
  {
    if d.frac.Some? {
      ReduceOfCanonical(d.frac.value);
    }
  }

  /** Every written duration reads back as its fraction in lowest terms and its dots. */
  lemma DurationReadsBack(d: RhythmicDuration)
    requires MicroformatDuration(d).Ok?
    ensures ReadDuration(MicroformatDuration(d).value) == Some((Reduce(d.frac.value.num, d.frac.value.den), d.dots))
  {
    var f := d.frac.value;
    var g := Reduce(f.num, f.den);
    var s := MicroformatDuration(d).value;
    var n: nat := if g.num > g.den then g.num else g.den;
    var digits := NatToString(n);
    var head := [if g.num > g.den then '*' else '/'] + digits;
    assert s == head + Repeat('d', d.dots);
    TrailingCountOfRepeat(head, 'd', d.dots);
    assert s[..|s| - d.dots] == head;
    assert head[1..] == digits;
    assert DigitsValue(head[1..]) == n;
  }

  // ---------------------------------------------------------------------------------------
  // microformat_pitch

  /** `'#' * alter` above zero, `'b' * -alter` below, nothing at zero. */
  function Accidentals(alter: int): string {
    if alter > 0 then Repeat('#', alter) else if alter < 0 then Repeat('b', -alter) else ""
  }

  /** `microformat_pitch`: the step, the alteration as sharps or flats, the octave. */
  function MicroformatPitch(p: Pitch): string {
    p.step + Accidentals(p.alter) + IntToString(p.octave)
  }

  /** A character that ends the step of a pitch micro-syntax. */
  predicate EndsStep(c: char) {
    c == '#' || c == 'b' || c == '-' || IsDigit(c)
  }

  /** The length of the step: up to the first character that ends it. */
  function StepLength(s: string): (k: nat)
    ensures k <= |s|
    ensures forall j :: 0 <= j < k ==> !EndsStep(s[j])
    ensures k < |s| ==> EndsStep(s[k])
  {
    if s == [] || EndsStep(s[0]) then 0 else StepLength(s[1..]) + 1
  }

  /** The number of copies of `c` that begin `s`. */
  function LeadingCount(s: string, c: char): (k: nat)
    ensures k <= |s|
  {
    if s != [] && s[0] == c then LeadingCount(s[1..], c) + 1 else 0
  }

  lemma {:induction false} LeadingCountOfRepeat(c: char, k: nat, y: string)
    requires y == [] || y[0] != c
    ensures LeadingCount(Repeat(c, k) + y, c) == k
  {
    if k > 0 {
      assert (Repeat(c, k) + y)[1..] == Repeat(c, k - 1) + y;
      LeadingCountOfRepeat(c, k - 1, y);
    }
  }

  /** The alteration a run of sharps, or else of flats, at the start of `s` spells, and the
      length of the run. */
  function ReadAccidentals(s: string): (r: (nat, int))
    ensures r.0 <= |s|
  {
    var sharps := LeadingCount(s, '#');
    if sharps > 0 then (sharps, sharps)
    else
      var flats := LeadingCount(s, 'b');
      var alter: int := -(flats as int);
      (flats, alter)
  }

  /** Reads the pitch micro-syntax back: the step, a run of `#` or else of `b`, the octave. */
  function ReadPitch(s: string): Option<Pitch> {
    var k := StepLength(s);
    var acc := ReadAccidentals(s[k..]);
    var octave := ParseInt(s[k..][acc.0..]);
    if octave.Some? then Some(Pitch(s[..k], octave.value, acc.1)) else None
  }

  lemma {:induction false} StepLengthOfPrefix(step: string, rest: string)
    requires forall j :: 0 <= j < |step| ==> !EndsStep(step[j])
    requires rest != [] && EndsStep(rest[0])
    ensures StepLength(step + rest) == |step|
  {
    if step != [] {
      assert (step + rest)[1..] == step[1..] + rest;
      StepLengthOfPrefix(step[1..], rest);
    }
  }

  /** After the step, the sharps or flats give back the alteration and the rest is the octave. */
  lemma AccidentalsReadBack(alter: int, oct: string)
    requires oct != [] && (oct[0] == '-' || IsDigit(oct[0]))
    ensures ReadAccidentals(Accidentals(alter) + oct).1 == alter
    ensures (Accidentals(alter) + oct)[ReadAccidentals(Accidentals(alter) + oct).0..] == oct
  {
    var rest := Accidentals(alter) + oct;
    if alter > 0 {
      LeadingCountOfRepeat('#', alter, oct);
      assert rest[alter..] == oct;
    } else if alter < 0 {
      assert rest[0] == 'b';
      LeadingCountOfRepeat('b', -alter, oct);
      assert rest[-alter..] == oct;
    } else {
      assert rest == oct;
    }
  }

  /** A written pitch reads back as itself, for every step free of the characters that end a
      step (the letters A to G are). */
  lemma PitchMicroformatReadsBack(p: Pitch)
    requires forall j :: 0 <= j < |p.step| ==> !EndsStep(p.step[j])
    ensures ReadPitch(MicroformatPitch(p)) == Some(p)
  {
    var s := MicroformatPitch(p);
    var oct := IntToString(p.octave);
    var rest := Accidentals(p.alter) + oct;
    assert s == p.step + rest;
    assert oct[0] == '-' || IsDigit(oct[0]) by { IntToStringChars(p.octave); }
    StepLengthOfPrefix(p.step, rest);
    AccidentalsReadBack(p.alter, oct);
    ParseIntOfIntToString(p.octave);
    ReadPitchOfParts(s, p.step, rest, oct, p);
  }

  lemma ReadPitchOfParts(s: string, step: string, rest: string, oct: string, p: Pitch)
    requires s == step + rest && StepLength(s) == |step| && step == p.step
    requires ReadAccidentals(rest).1 == p.alter && rest[ReadAccidentals(rest).0..] == oct
    requires ParseInt(oct) == Some(p.octave)
    ensures ReadPitch(s) == Some(p)
  {
    var k := StepLength(s);
    assert s[..k] == step;
    assert s[k..] == rest;
  }

  // ---------------------------------------------------------------------------------------
  // microformat_accidental, microformat_slur_side, microformat_octave_shift

  /** `microformat_accidental`: the table's name; a code missing from it is a ValueError. */
  function MicroformatAccidental(code: int): (r: Result<string>)
    ensures r.Ok? <==> code in ACCIDENTAL_TYPES_FOR_EXPORT
    ensures r.Ok? && code != ACCIDENTAL_DOUBLE_FLAT ==>
      (r.value in MusicXmlFields.ACCIDENTAL_TYPES_FOR_IMPORT
       && MusicXmlFields.ACCIDENTAL_TYPES_FOR_IMPORT[r.value] == code)
  {
    AccidentalTablesAgree();
    if code in ACCIDENTAL_TYPES_FOR_EXPORT then Ok(ACCIDENTAL_TYPES_FOR_EXPORT[code])
    else Err(InternalError("ValueError: Unsupported accidental"))
  }

  /** `microformat_slur_side`: "up" or "down"; any other code is a KeyError. */
  function MicroformatSlurSide(side: int): (r: Result<string>)
    ensures r.Ok? <==> side == SIDE_UP || side == SIDE_DOWN
    ensures r == Ok("up") <==> side == SIDE_UP
    ensures r == Ok("down") <==> side == SIDE_DOWN
  {
    Lookup(SLUR_SIDES_FOR_EXPORT, side)
  }

  /** `microformat_octave_shift`: the signed size; any other code is a KeyError. */
  function MicroformatOctaveShift(shiftType: int): (r: Result<string>)
    ensures r.Ok? <==> TYPE_8VA <= shiftType <= TYPE_22MB
    ensures r.Ok? ==> r.value != [] && (r.value[0] == '-' <==> shiftType in {TYPE_8VA, TYPE_15MA, TYPE_22MA})
  {
    Lookup(OCTAVE_SHIFT_TYPES_FOR_EXPORT, shiftType)
  }

  // ---------------------------------------------------------------------------------------
  // get_measure_header

  /** The global directions a bar can carry, in the order the header writes them. */
  datatype DirectionKind = TimeChange | KeyChange | RepeatStart | EndingStart | EndingStop | RepeatEnd

  const DIRECTION_ORDER: seq<DirectionKind> :=
    [TimeChange, KeyChange, RepeatStart, EndingStart, EndingStop, RepeatEnd]

  /** Whether bar `idx` calls for a direction of that kind: a time signature that is set and
      changed, a key signature that is non-zero and whose effective key changed, and each
      repeat or ending the bar has. */
  predicate Wanted(bars: seq<Bar>, idx: nat, k: DirectionKind)
    requires idx < |bars|
  {
    match k
    case TimeChange => bars[idx].timesig.Some? && TimesigChanged(bars, idx)
    case KeyChange => bars[idx].keysig.Some? && bars[idx].keysig.value != 0 && KeysigChanged(bars, idx)
    case RepeatStart => bars[idx].startRepeat
    case EndingStart => bars[idx].startEnding.Some?
    case EndingStop => bars[idx].stopEnding.Some?
    case RepeatEnd => bars[idx].endRepeat != 0
  }

  /** The kinds of `ks` that bar `idx` calls for, in the order of `ks`. */
  function WantedKinds(bars: seq<Bar>, idx: nat, ks: seq<DirectionKind>): seq<DirectionKind>
    requires idx < |bars|
  {
    if ks == [] then []
    else (if Wanted(bars, idx, ks[0]) then [ks[0]] else []) + WantedKinds(bars, idx, ks[1..])
  }

  /** The kind of a written global direction: its tag, its repeat type, and for an ending
      whether it carries numbers (only the start of an ending does). */
  function KindOf(x: Xml): Option<DirectionKind> {
    if x.tag == "time" then Some(TimeChange)
    else if x.tag == "key" then Some(KeyChange)
    else if x.tag == "repeat" && AttrValue(x, "type") == Some("start") then Some(RepeatStart)
    else if x.tag == "ending" && AttrValue(x, "number").Some? then Some(EndingStart)
    else if x.tag == "ending" then Some(EndingStop)
    else if x.tag == "repeat" && AttrValue(x, "type") == Some("end") then Some(RepeatEnd)
    else None
  }

  function Kinds(xs: seq<Xml>): seq<Option<DirectionKind>> {
    if xs == [] then [] else [KindOf(xs[0])] + Kinds(xs[1..])
  }

  function Somes(ks: seq<DirectionKind>): seq<Option<DirectionKind>> {
    if ks == [] then [] else [Some(ks[0])] + Somes(ks[1..])
  }

  /** The direction of kind `k` that bar `idx` calls for, if any: time and key signatures
      in their micro-syntax; an ending's type through the export table (a missing type is a
      KeyError) and, for the start, its numbers joined with commas (a missing list is a
      TypeError); the end of a repeat with `times` only above the default of 2. */
  function Direction(bars: seq<Bar>, idx: nat, k: DirectionKind): Result<seq<Xml>>
    requires idx < |bars|
  {
    var bar := bars[idx];
    if !Wanted(bars, idx, k) then Ok([])
    else
      match k
      case TimeChange => Ok([Leaf("time", map["signature" := MicroformatTimesig(bar.timesig.value)])])
      case KeyChange => Ok([Leaf("key", map["fifths" := MicroformatKeysig(bar.keysig.value)])])
      case RepeatStart => Ok([Leaf("repeat", map["type" := "start"])])
      case EndingStart =>
        var t :- Lookup(ENDING_TYPES_FOR_EXPORT, bar.startEnding.value.endingType);
        (match bar.startEnding.value.numbers
         case None => Err(InternalError("TypeError: can only join an iterable"))
         case Some(ns) => Ok([Leaf("ending", map["type" := t, "number" := JoinWithCommas(ns)])]))
      case EndingStop =>
        var t :- Lookup(ENDING_TYPES_FOR_EXPORT, bar.stopEnding.value.endingType);
        Ok([Leaf("ending", map["type" := t])])
      case RepeatEnd =>
        Ok([Leaf("repeat", map["type" := "end"] +
                           (if bar.endRepeat > 2 then map["times" := IntToString(bar.endRepeat)] else map[]))])
  }

  /** The directions of kinds `ks`, in that order; the first failure ends the header. */
  function DirectionsOf(bars: seq<Bar>, idx: nat, ks: seq<DirectionKind>): Result<seq<Xml>>
    requires idx < |bars|
  {
    if ks == [] then Ok([])
    else
      var d :- Direction(bars, idx, ks[0]);
      var rest :- DirectionsOf(bars, idx, ks[1..]);
      Ok(d + rest)
  }

  /** The directions of the header of bar `idx`, in the order they are appended. */
  function HeaderDirections(bars: seq<Bar>, idx: nat): Result<seq<Xml>>
    requires idx < |bars|
  {
    DirectionsOf(bars, idx, DIRECTION_ORDER)
  }

  /** `get_measure_header`: a `<measure>` holding one `<directions>` with the header's
      directions, or nothing when there are none. */
  function GetMeasureHeader(bars: seq<Bar>, idx: nat): (r: Result<Xml>)
    requires idx < |bars|
    ensures r.Ok? <==> HeaderDirections(bars, idx).Ok?
    ensures r.Ok? ==> r.value.tag == "measure" && r.value.attrs == map[]
    ensures r.Ok? ==> (r.value.children == [] <==> HeaderDirections(bars, idx).value == [])
    ensures r.Ok? && r.value.children != [] ==>
      r.value.children == [Xml("directions", map[], None, HeaderDirections(bars, idx).value)]
  {
    var dirs :- HeaderDirections(bars, idx);
    Ok(Xml("measure", map[], None, if dirs == [] then [] else [Xml("directions", map[], None, dirs)]))
  }

  lemma {:induction false} KindsAppend(a: seq<Xml>, b: seq<Xml>)
    ensures Kinds(a + b) == Kinds(a) + Kinds(b)
  {
    if a != [] {
      assert (a + b)[0] == a[0];
      assert (a + b)[1..] == a[1..] + b;
      KindsAppend(a[1..], b);
      assert Kinds(a + b) == [KindOf(a[0])] + Kinds(a[1..] + b);
    } else {
      assert a + b == b;
    }
  }

  /** A direction that is written has the kind it was written for. */
  lemma DirectionHasItsKind(bars: seq<Bar>, idx: nat, k: DirectionKind)
    requires idx < |bars|
    requires Direction(bars, idx, k).Ok?
    ensures Kinds(Direction(bars, idx, k).value) == if Wanted(bars, idx, k) then [Some(k)] else []
  {
    var d := Direction(bars, idx, k).value;
    if Wanted(bars, idx, k) {
      assert |d| == 1;
      assert Kinds(d) == [KindOf(d[0])];
      match k
      case EndingStart =>
      case RepeatEnd =>
      case _ =>
    }
  }

  /** The directions of kinds `ks` are exactly the wanted ones, each once, in the order of
      `ks`. */
  lemma {:induction false} DirectionsOfKinds(bars: seq<Bar>, idx: nat, ks: seq<DirectionKind>)
    requires idx < |bars|
    requires DirectionsOf(bars, idx, ks).Ok?
    ensures Kinds(DirectionsOf(bars, idx, ks).value) == Somes(WantedKinds(bars, idx, ks))
  {
    if ks != [] {
      var d := Direction(bars, idx, ks[0]).value;
      var rest := DirectionsOf(bars, idx, ks[1..]).value;
      DirectionHasItsKind(bars, idx, ks[0]);
      DirectionsOfKinds(bars, idx, ks[1..]);
      KindsAppend(d, rest);
      var w := if Wanted(bars, idx, ks[0]) then [ks[0]] else [];
      SomesAppend(w, WantedKinds(bars, idx, ks[1..]));
    }
  }

  lemma {:induction false} SomesAppend(a: seq<DirectionKind>, b: seq<DirectionKind>)
    ensures Somes(a + b) == Somes(a) + Somes(b)
  {
    if a != [] {
      assert (a + b)[0] == a[0];
      assert (a + b)[1..] == a[1..] + b;
      SomesAppend(a[1..], b);
      assert Somes(a + b) == [Some(a[0])] + Somes(a[1..] + b);
    } else {
      assert a + b == b;
    }
  }

  /** The header writes exactly the directions the bar calls for, each once, in the order
      time, key, repeat start, ending start, ending stop, repeat end. */
  lemma MeasureHeaderOrder(bars: seq<Bar>, idx: nat)
    requires idx < |bars|
    requires HeaderDirections(bars, idx).Ok?
    ensures Kinds(HeaderDirections(bars, idx).value) == Somes(WantedKinds(bars, idx, DIRECTION_ORDER))
  {
    DirectionsOfKinds(bars, idx, DIRECTION_ORDER);
  }

  /** The directions of kinds `ks` fail exactly when one of them fails. */
  lemma {:induction false} DirectionsOfFails(bars: seq<Bar>, idx: nat, ks: seq<DirectionKind>)
    requires idx < |bars|
    ensures DirectionsOf(bars, idx, ks).Err? <==> exists k :: k in ks && Direction(bars, idx, k).Err?
  {
    if ks != [] {
      DirectionsOfFails(bars, idx, ks[1..]);
      assert forall k :: k in ks <==> k == ks[0] || k in ks[1..];
    }
  }

  /** The header fails exactly when an ending's type is missing from the export table or a
      starting ending has no number list. */
  lemma MeasureHeaderFails(bars: seq<Bar>, idx: nat)
    requires idx < |bars|
    ensures GetMeasureHeader(bars, idx).Err? <==>
      || (bars[idx].startEnding.Some? &&
          (bars[idx].startEnding.value.endingType !in ENDING_TYPES_FOR_EXPORT
           || bars[idx].startEnding.value.numbers.None?))
      || (bars[idx].stopEnding.Some? && bars[idx].stopEnding.value.endingType !in ENDING_TYPES_FOR_EXPORT)
  {
    DirectionsOfFails(bars, idx, DIRECTION_ORDER);
    assert DIRECTION_ORDER[3] == EndingStart && DIRECTION_ORDER[4] == EndingStop;
    forall k | k in DIRECTION_ORDER
      ensures Direction(bars, idx, k).Err? ==> k == EndingStart || k == EndingStop
    {
    }
    assert HeaderDirections(bars, idx).Err? <==>
      Direction(bars, idx, EndingStart).Err? || Direction(bars, idx, EndingStop).Err?;
  }

  /** The end of a repeat carries `times` exactly when it repeats more than twice, and the
      attribute reads back as the count. */
  lemma RepeatEndTimes(bars: seq<Bar>, idx: nat)
    requires idx < |bars| && bars[idx].endRepeat != 0
    ensures |Direction(bars, idx, RepeatEnd).value| == 1
    ensures var x := Direction(bars, idx, RepeatEnd).value[0];
      && (AttrValue(x, "times").Some? <==> bars[idx].endRepeat > 2)
      && (bars[idx].endRepeat > 2 ==> ParseInt(AttrValue(x, "times").value) == Some(bars[idx].endRepeat))
  {
    var e := bars[idx].endRepeat;
    var x := Direction(bars, idx, RepeatEnd).value[0];
    if e > 2 {
      ParseIntOfIntToString(e);
    } else {
      assert x.attrs == map["type" := "end"];
    }
  }

  /** The start of an ending carries its numbers in a form the reader splits back into the
      same list. */
  lemma EndingStartNumbers(bars: seq<Bar>, idx: nat)
    requires idx < |bars| && bars[idx].startEnding.Some?
    requires Direction(bars, idx, EndingStart).Ok?
    requires forall i :: 0 <= i < |bars[idx].startEnding.value.numbers.value| ==>
      bars[idx].startEnding.value.numbers.value[i] >= 0
    ensures |Direction(bars, idx, EndingStart).value| == 1
    ensures AttrValue(Direction(bars, idx, EndingStart).value[0], "number").Some?
    ensures MusicXmlFields.EndingNumbers(AttrValue(Direction(bars, idx, EndingStart).value[0], "number").value)
      == bars[idx].startEnding.value.numbers.value
  {
    var ns := bars[idx].startEnding.value.numbers.value;
    MusicXmlFields.EndingNumbersReadBack(ns);
  }

  // ---------------------------------------------------------------------------------------
  // write_note, write_slur, write_event

  /** The ids the reader gives events and notes, `event{n}` and `note{n}`. */
  function EventId(id: nat): string {
    "event" + NatToString(id)
  }

  function NoteId(number: nat): string {
    "note" + NatToString(number)
  }

  /** Different events and different notes get different ids. */
  lemma IdsAreDistinct(a: nat, b: nat)
    ensures EventId(a) == EventId(b) ==> a == b
    ensures NoteId(a) == NoteId(b) ==> a == b
  {
    if EventId(a) == EventId(b) {
      assert EventId(a)[5..] == NatToString(a) && EventId(b)[5..] == NatToString(b);
    }
    if NoteId(a) == NoteId(b) {
      assert NoteId(a)[4..] == NatToString(a) && NoteId(b)[4..] == NatToString(b);
    }
  }

  /** The `accidental` attribute of a note whose rendered accidental is set and non-zero. */
  function AccidentalAttr(renderedAcc: Option<int>): Result<map<string, string>> {
    if renderedAcc.Some? && renderedAcc.value != 0 then
      var a :- MicroformatAccidental(renderedAcc.value);
      Ok(map["accidental" := a])
    else Ok(map[])
  }

  /** `write_note`: the pitch in its micro-syntax, the id when another object refers to the
      note, the rendered accidental, and a `<tied>` child naming the note ending a tie. */
  function WriteNote(n: Note): Result<Xml> {
    var acc :- AccidentalAttr(n.renderedAcc);
    Ok(Xml("note", map["pitch" := MicroformatPitch(n.pitch)]
                   + (if n.isReferenced then map["id" := NoteId(n.number)] else map[]) + acc,
           None,
           if n.tieEndNote.Some? then [Leaf("tied", map["target" := NoteId(n.tieEndNote.value)])] else []))
  }

  /** A note fails to be written only when its rendered accidental has no name. */
  lemma WriteNoteFails(n: Note)
    ensures WriteNote(n).Ok? <==>
      (n.renderedAcc.Some? && n.renderedAcc.value != 0 ==> n.renderedAcc.value in ACCIDENTAL_TYPES_FOR_EXPORT)
  {
  }

  /** A written note carries its pitch in the micro-syntax and its `id` exactly when it is
      referenced. */
  lemma WriteNoteAttributes(n: Note)
    requires WriteNote(n).Ok?
    ensures var x := WriteNote(n).value;
      && x.tag == "note"
      && AttrValue(x, "pitch") == Some(MicroformatPitch(n.pitch))
      && AttrValue(x, "id") == (if n.isReferenced then Some(NoteId(n.number)) else None)
  {
    AccidentalAttrKeys(n.renderedAcc);
  }

  /** A written note carries an `accidental` exactly when one is rendered. */
  lemma WriteNoteAccidental(n: Note)
    requires WriteNote(n).Ok?
    ensures AttrValue(WriteNote(n).value, "accidental").Some? <==> n.renderedAcc.Some? && n.renderedAcc.value != 0
  {
    AccidentalAttrKeys(n.renderedAcc);
  }

  lemma AccidentalAttrKeys(renderedAcc: Option<int>)
    requires AccidentalAttr(renderedAcc).Ok?
    ensures AccidentalAttr(renderedAcc).value.Keys ==
      (if renderedAcc.Some? && renderedAcc.value != 0 then {"accidental"} else {})
  {
  }

  /** A written note has a `<tied>` child naming the tie's end note exactly when a tie starts
      on it, and no other child. */
  lemma WriteNoteTie(n: Note)
    requires WriteNote(n).Ok?
    ensures n.tieEndNote.None? ==> WriteNote(n).value.children == []
    ensures n.tieEndNote.Some? ==>
      WriteNote(n).value.children == [Leaf("tied", map["target" := NoteId(n.tieEndNote.value)])]
  {
  }

  /** The attributes of a slur that is written, before its side: the location of an
      incomplete slur, or the target event and the optional end notes of a complete one.
      None when the slur is dropped: an incomplete slur whose type has no location, or a
      complete one without an end event. */
  function SlurAttrs(s: Slur): Option<map<string, string>> {
    if s.isIncomplete then
      if s.incompleteType.Some? && s.incompleteType.value in SLUR_INCOMPLETE_LOCATIONS_FOR_EXPORT then
        Some(map["location" := SLUR_INCOMPLETE_LOCATIONS_FOR_EXPORT[s.incompleteType.value]])
      else None
    else if s.endEventId.None? then None
    else
      Some(map["target" := EventId(s.endEventId.value)]
           + (if s.startNote.Some? then map["start-note" := NoteId(s.startNote.value)] else map[])
           + (if s.endNote.Some? then map["end-note" := NoteId(s.endNote.value)] else map[]))
  }

  /** `write_slur`: the `<slur>` element, or None when the slur is dropped; a side missing
      from the table is a KeyError. */
  function WriteSlur(s: Slur): Result<Option<Xml>> {
    match SlurAttrs(s)
    case None => Ok(None)
    case Some(attrs) =>
      if s.side.None? then Ok(Some(Leaf("slur", attrs)))
      else
        var side :- MicroformatSlurSide(s.side.value);
        Ok(Some(Leaf("slur", attrs["side" := side])))
  }

  /** A slur is dropped exactly when it is incomplete with an unknown type or complete without
      an end event; a written one fails only on an unknown side. */
  lemma WriteSlurDrops(s: Slur)
    ensures WriteSlur(s) == Ok(None) <==>
      || (s.isIncomplete && (s.incompleteType.None? || s.incompleteType.value !in SLUR_INCOMPLETE_LOCATIONS_FOR_EXPORT))
      || (!s.isIncomplete && s.endEventId.None?)
    ensures WriteSlur(s).Err? <==>
      SlurAttrs(s).Some? && s.side.Some? && s.side.value != SIDE_UP && s.side.value != SIDE_DOWN
  {
  }

  /** A written slur is a `<slur>` carrying `location` exactly when it is incomplete. */
  lemma WriteSlurLocation(s: Slur)
    requires WriteSlur(s).Ok? && WriteSlur(s).value.Some?
    ensures WriteSlur(s).value.value.tag == "slur"
    ensures AttrValue(WriteSlur(s).value.value, "location").Some? <==> s.isIncomplete
  {
    WrittenSlurKeys(s);
    SlurAttrsKeys(s);
  }

  /** A written slur's `target` is the end event's id when it is complete, and absent when it
      is incomplete. */
  lemma WriteSlurTarget(s: Slur)
    requires WriteSlur(s).Ok? && WriteSlur(s).value.Some?
    ensures AttrValue(WriteSlur(s).value.value, "target") ==
      (if s.isIncomplete then None else Some(EventId(s.endEventId.value)))
  {
    WrittenSlurKeys(s);
    SlurAttrsKeys(s);
  }

  /** A written slur carries each end note exactly when it is complete and that note is set. */
  lemma WriteSlurNotes(s: Slur)
    requires WriteSlur(s).Ok? && WriteSlur(s).value.Some?
    ensures AttrValue(WriteSlur(s).value.value, "start-note").Some? <==> !s.isIncomplete && s.startNote.Some?
    ensures AttrValue(WriteSlur(s).value.value, "end-note").Some? <==> !s.isIncomplete && s.endNote.Some?
  {
    WrittenSlurKeys(s);
    SlurAttrsKeys(s);
  }

  /** A written slur carries `side` exactly when a side is set. */
  lemma WriteSlurSide(s: Slur)
    requires WriteSlur(s).Ok? && WriteSlur(s).value.Some?
    ensures AttrValue(WriteSlur(s).value.value, "side").Some? <==> s.side.Some?
  {
    WrittenSlurKeys(s);
    SlurAttrsKeys(s);
  }

  /** A written slur holds the attributes before its side, and `side` when one is set. */
  lemma WrittenSlurKeys(s: Slur)
    requires WriteSlur(s).Ok? && WriteSlur(s).value.Some?
    ensures SlurAttrs(s).Some?
    ensures var x, a := WriteSlur(s).value.value, SlurAttrs(s).value;
      && x.tag == "slur"
      && x.attrs.Keys == a.Keys + (if s.side.Some? then {"side"} else {})
      && forall k :: k in a && k != "side" ==> x.attrs[k] == a[k]
  {
  }

  /** The keys of a written slur before its side. */
  lemma SlurAttrsKeys(s: Slur)
    requires SlurAttrs(s).Some?
    ensures "side" !in SlurAttrs(s).value
    ensures s.isIncomplete ==> SlurAttrs(s).value.Keys == {"location"}
    ensures !s.isIncomplete ==> SlurAttrs(s).value["target"] == EventId(s.endEventId.value)
    ensures !s.isIncomplete ==>
      SlurAttrs(s).value.Keys == {"target"} + (if s.startNote.Some? then {"start-note"} else {}) + (if s.endNote.Some? then {"end-note"} else {})
  {
  }

  /** The end notes of a written complete slur. */
  lemma SlurAttrsNotes(s: Slur)
    requires SlurAttrs(s).Some? && !s.isIncomplete
    ensures s.startNote.Some? ==> SlurAttrs(s).value["start-note"] == NoteId(s.startNote.value)
    ensures s.endNote.Some? ==> SlurAttrs(s).value["end-note"] == NoteId(s.endNote.value)
  {
  }

  /** The element of an event item: a `<note>` for a note, a `<rest>` for a rest. */
  function WriteEventItem(item: EventItem): Result<Xml> {
    match item
    case NoteItem(n) => WriteNote(n)
    case RestItem(_) => Ok(Leaf("rest", map[]))
  }

  /** The `<slur>` elements of the slurs that are not dropped, in order. */
  function WriteSlurs(slurs: seq<Slur>): (r: Result<seq<Xml>>)
    ensures r.Ok? ==> |r.value| <= |slurs|
    ensures r.Ok? ==> forall i :: 0 <= i < |r.value| ==> r.value[i].tag == "slur"
    ensures r.Ok? <==> forall i :: 0 <= i < |slurs| ==> WriteSlur(slurs[i]).Ok?
  {
    if slurs == [] then Ok([])
    else
      var x :- WriteSlur(slurs[0]);
      var rest :- WriteSlurs(slurs[1..]);
      assert forall i :: 0 < i < |slurs| ==> slurs[i] == slurs[1..][i - 1];
      Ok((if x.Some? then [x.value] else []) + rest)
  }

  /** The slurs of a list are written in order: writing two lists one after the other writes
      their concatenation. */
  lemma WriteSlursAppend(a: seq<Slur>, b: seq<Slur>)
    ensures WriteSlurs(a + b).Ok? <==> WriteSlurs(a).Ok? && WriteSlurs(b).Ok?
    ensures WriteSlurs(a + b).Ok? ==> WriteSlurs(a + b).value == WriteSlurs(a).value + WriteSlurs(b).value
  {
    var ab := a + b;
    assert forall i :: 0 <= i < |a| ==> ab[i] == a[i];
    assert forall j :: 0 <= j < |b| ==> ab[|a| + j] == b[j];
    if WriteSlurs(ab).Ok? {
      WriteSlursAppendValue(a, b);
    }
  }

  lemma {:induction false} WriteSlursAppendValue(a: seq<Slur>, b: seq<Slur>)
    requires WriteSlurs(a).Ok? && WriteSlurs(b).Ok? && WriteSlurs(a + b).Ok?
    ensures WriteSlurs(a + b).value == WriteSlurs(a).value + WriteSlurs(b).value
  {
    if a == [] {
      assert a + b == b;
    } else {
      var ab := a + b;
      assert ab[0] == a[0] && ab[1..] == a[1..] + b;
      var x := WriteSlur(a[0]);
      var ra, rab := WriteSlurs(a[1..]), WriteSlurs(a[1..] + b);
      assert x.Ok? && ra.Ok? && rab.Ok?;
      var head: seq<Xml> := if x.value.Some? then [x.value.value] else [];
      assert WriteSlurs(a).value == head + ra.value;
      assert WriteSlurs(ab).value == head + rab.value;
      WriteSlursAppendValue(a[1..], b);
      ConcatAssoc(head, ra.value, WriteSlurs(b).value);
    }
  }

  lemma ConcatAssoc<T>(x: seq<T>, y: seq<T>, z: seq<T>)
    ensures x + (y + z) == (x + y) + z
  {
  }

  /** One slur is written as its `<slur>` element, or as nothing when it is dropped. */
  lemma WriteSlursOfOne(s: Slur)
    requires WriteSlur(s).Ok?
    ensures WriteSlurs([s]) == Ok(if WriteSlur(s).value.Some? then [WriteSlur(s).value.value] else [])
  {
    var one := [s];
    assert one[0] == s && one[1..] == [];
    assert WriteSlurs(one[1..]) == Ok([]);
    var kept: seq<Xml> := if WriteSlur(s).value.Some? then [WriteSlur(s).value.value] else [];
    assert kept + [] == kept;
  }

  /** The `<slur>` elements written are exactly those of the slurs that are not dropped,
      and when none is dropped, element i is slur i written. */
  lemma {:induction false} WriteSlursKept(slurs: seq<Slur>)
    requires WriteSlurs(slurs).Ok?
    ensures forall x :: x in WriteSlurs(slurs).value <==>
      exists i :: 0 <= i < |slurs| && WriteSlur(slurs[i]) == Ok(Some(x))
    ensures (forall i :: 0 <= i < |slurs| ==> WriteSlur(slurs[i]).value.Some?) ==>
      && |WriteSlurs(slurs).value| == |slurs|
      && forall i :: 0 <= i < |slurs| ==> WriteSlurs(slurs).value[i] == WriteSlur(slurs[i]).value.value
  {
    if slurs != [] {
      var rest := slurs[1..];
      WriteSlursKept(rest);
      assert forall i :: 0 < i < |slurs| ==> slurs[i] == rest[i - 1];
      forall x | x in WriteSlurs(slurs).value
        ensures exists i :: 0 <= i < |slurs| && WriteSlur(slurs[i]) == Ok(Some(x))
      {
        if x !in WriteSlurs(rest).value {
          assert WriteSlur(slurs[0]) == Ok(Some(x));
        } else {
          var k :| 0 <= k < |rest| && WriteSlur(rest[k]) == Ok(Some(x));
          assert WriteSlur(slurs[k + 1]) == Ok(Some(x));
        }
      }
      forall x, i | 0 <= i < |slurs| && WriteSlur(slurs[i]) == Ok(Some(x))
        ensures x in WriteSlurs(slurs).value
      {
        if i > 0 {
          assert WriteSlur(rest[i - 1]) == Ok(Some(x));
        }
      }
    }
  }

  /** `write_event`: the duration in its micro-syntax, the id only when slurs end here, the
      notes and rests, then the slurs. */
  function WriteEvent(e: Event): Result<Xml> {
    var value :- MicroformatDuration(e.duration);
    var children :- EventChildren(e);
    Ok(Xml("event", EventAttrs(e, value), None, children))
  }

  function EventAttrs(e: Event, value: string): map<string, string> {
    map["value" := value] + (if e.slurEnds != [] then map["id" := EventId(e.id)] else map[])
  }

  /** The notes and rests of an event, then its slurs. */
  function EventChildren(e: Event): Result<seq<Xml>> {
    var items :- MapOk(e.eventItems, WriteEventItem);
    var slurs :- WriteSlurs(e.slurs);
    Ok(items + slurs)
  }

  /** A written event's `value` reads back as its duration. */
  lemma WriteEventValue(e: Event)
    requires WriteEvent(e).Ok?
    ensures var x := WriteEvent(e).value;
      && x.tag == "event"
      && AttrValue(x, "value").Some?
      && ReadDuration(AttrValue(x, "value").value) ==
           Some((Reduce(e.duration.frac.value.num, e.duration.frac.value.den), e.duration.dots))
  {
    var v := MicroformatDuration(e.duration).value;
    assert AttrValue(WriteEvent(e).value, "value") == Some(v);
    DurationReadsBack(e.duration);
  }

  /** A written event carries an `id` exactly when some slur ends on it. */
  lemma WriteEventId(e: Event)
    requires WriteEvent(e).Ok?
    ensures AttrValue(WriteEvent(e).value, "id") == (if e.slurEnds != [] then Some(EventId(e.id)) else None)
  {
    assert WriteEvent(e).value.attrs == EventAttrs(e, MicroformatDuration(e.duration).value);
  }

  /** A written event's children are its items in order, each written, then its slurs
      written as `WriteSlurs` writes them. */
  lemma WriteEventChildren(e: Event)
    requires WriteEvent(e).Ok?
    ensures var x := WriteEvent(e).value;
      && |x.children| >= |e.eventItems|
      && (forall i :: 0 <= i < |e.eventItems| ==>
            x.children[i].tag == (if e.eventItems[i].NoteItem? then "note" else "rest"))
      && (forall i :: |e.eventItems| <= i < |x.children| ==> x.children[i].tag == "slur")
      && (forall i :: 0 <= i < |e.eventItems| ==> WriteEventItem(e.eventItems[i]) == Ok(x.children[i]))
      && WriteSlurs(e.slurs).Ok? && x.children[|e.eventItems|..] == WriteSlurs(e.slurs).value
  {
    var items := MapOk(e.eventItems, WriteEventItem).value;
    var slurs := WriteSlurs(e.slurs).value;
    assert WriteEvent(e).value.children == EventChildren(e).value == items + slurs;
  }

  /** Inside a written `<event>`, the element of note item i carries the note's pitch, its
      `id` exactly when it is referenced, and its `<tied>` exactly when its tie ends. */
  lemma WriteEventNote(e: Event, i: nat)
    requires WriteEvent(e).Ok? && i < |e.eventItems| && e.eventItems[i].NoteItem?
    ensures var n, c := e.eventItems[i].note, WriteEvent(e).value.children[i];
      && c.tag == "note"
      && AttrValue(c, "pitch") == Some(MicroformatPitch(n.pitch))
      && AttrValue(c, "id") == (if n.isReferenced then Some(NoteId(n.number)) else None)
      && c.children == (if n.tieEndNote.Some? then [Leaf("tied", map["target" := NoteId(n.tieEndNote.value)])] else [])
  {
    WriteEventChildren(e);
    var n := e.eventItems[i].note;
    assert WriteNote(n) == Ok(WriteEvent(e).value.children[i]);
    WriteNoteAttributes(n);
    WriteNoteTie(n);
  }

  // ---------------------------------------------------------------------------------------
  // write_sequence_items, write_tuplet, write_octave_shift

  /** The element an item is written as. */
  function ItemTag(item: Item): string {
    match item
    case EventEntry(_) => "event"
    case Tuplet(_, _) => "tuplet"
    case OctaveShift(_, _) => "directions"
  }

  /** One item: an event; a tuplet with its ratio as `inner` and `outer` and its items inside
      (a missing ratio is an AttributeError); an octave shift inside a `<directions>` of its
      own. */
  function WriteItem(item: Item): (r: Result<Xml>)
    ensures r.Ok? ==> r.value.tag == ItemTag(item)
    decreases item, 1
  {
    match item
    case EventEntry(e) => WriteEvent(e)
    case Tuplet(inner, ratio) =>
      if ratio.None? then Err(InternalError("AttributeError: 'NoneType' object has no attribute 'inner_numerator'"))
      else
        var children :- WriteItems(inner);
        var t := ratio.value;
        Ok(Xml("tuplet", map["inner" := SlashForm(t.innerNumerator, t.innerDenominator),
                             "outer" := SlashForm(t.outerNumerator, t.outerDenominator)], None, children))
    case OctaveShift(shiftType, endPos) =>
      var v :- MicroformatOctaveShift(shiftType);
      Ok(Xml("directions", map[], None, [Leaf("octave-shift", map["type" := v, "end" := endPos])]))
  }

  /** `write_sequence_items`: one element per item, in order. */
  function WriteItems(items: seq<Item>): (r: Result<seq<Xml>>)
    ensures r.Ok? ==> |r.value| == |items|
    ensures r.Ok? ==> forall i :: 0 <= i < |items| ==> r.value[i].tag == ItemTag(items[i])
    decreases items, 0
  {
    if items == [] then Ok([])
    else
      var x :- WriteItem(items[0]);
      var rest :- WriteItems(items[1..]);
      assert forall i :: 0 < i < |items| ==> items[i] == items[1..][i - 1];
      Ok([x] + rest)
  }

  /** A tuplet's `inner` and `outer` are its ratio's numerator and denominator in the "N/D"
      form (which reads back, by SlashFormReadsBack), and its children are its items written
      in order. */
  lemma TupletAttributes(items: seq<Item>, t: TupletRatio)
    requires WriteItem(Tuplet(items, Some(t))).Ok?
    ensures var x := WriteItem(Tuplet(items, Some(t))).value;
      && AttrValue(x, "inner") == Some(SlashForm(t.innerNumerator, t.innerDenominator))
      && AttrValue(x, "outer") == Some(SlashForm(t.outerNumerator, t.outerDenominator))
      && WriteItems(items) == Ok(x.children)
  {
  }

  /** An octave shift is a `<directions>` holding one `<octave-shift>` whose `type` is the
      signed size and whose `end` is the shift's end position. */
  lemma OctaveShiftElement(shiftType: int, endPos: string)
    requires WriteItem(OctaveShift(shiftType, endPos)).Ok?
    ensures var x := WriteItem(OctaveShift(shiftType, endPos)).value;
      && |x.children| == 1 && x.children[0].tag == "octave-shift"
      && AttrValue(x.children[0], "type") == Some(OCTAVE_SHIFT_TYPES_FOR_EXPORT[shiftType])
      && AttrValue(x.children[0], "end") == Some(endPos)
  {
    var o := WriteItem(OctaveShift(shiftType, endPos)).value.children[0];
  }

  // ---------------------------------------------------------------------------------------
  // Every event is written once, in iteration order

  /** The `<event>` elements of a tree, in document order (events are not searched inside). */
  function XmlEvents(xs: seq<Xml>): seq<Xml>
    decreases xs, 0
  {
    if xs == [] then [] else XmlEventsOf(xs[0]) + XmlEvents(xs[1..])
  }

  function XmlEventsOf(x: Xml): seq<Xml>
    decreases x, 1
  {
    if x.tag == "event" then [x] else XmlEvents(x.children)
  }

  /** The written forms of a list of events. */
  function WrittenEvents(events: seq<Event>): Result<seq<Xml>> {
    MapOk(events, WriteEvent)
  }

  lemma {:induction false} XmlEventsAppend(a: seq<Xml>, b: seq<Xml>)
    ensures XmlEvents(a + b) == XmlEvents(a) + XmlEvents(b)
  {
    if a == [] {
      assert a + b == b;
    } else {
      assert (a + b)[0] == a[0];
      assert (a + b)[1..] == a[1..] + b;
      XmlEventsAppend(a[1..], b);
    }
  }

  /** Writing a sequence's items writes each of its events exactly once, in the order
      `iter_events` visits them, and writes nothing else as an `<event>`. */
  lemma {:induction false} ItemsWriteEachEvent(items: seq<Item>)
    requires WriteItems(items).Ok?
    ensures WrittenEvents(IterEvents(items)) == Ok(XmlEvents(WriteItems(items).value))
    decreases items, 0
  {
    if items != [] {
      var x := WriteItem(items[0]).value;
      var rest := WriteItems(items[1..]).value;
      ItemWritesItsEvents(items[0]);
      ItemsWriteEachEvent(items[1..]);
      assert WriteItems(items).value == [x] + rest;
      XmlEventsAppend([x], rest);
      assert XmlEvents([x]) == XmlEventsOf(x);
      MapOkAppend(ItemEvents(items[0]), IterEvents(items[1..]), WriteEvent);
    }
  }

  lemma {:induction false} ItemWritesItsEvents(item: Item)
    requires WriteItem(item).Ok?
    ensures WrittenEvents(ItemEvents(item)) == Ok(XmlEventsOf(WriteItem(item).value))
    decreases item, 1
  {
    match item
    case EventEntry(e) =>
      assert MapOk([e], WriteEvent).value == [WriteEvent(e).value];
    case Tuplet(inner, _) =>
      ItemsWriteEachEvent(inner);
    case OctaveShift(_, _) =>
      var x := WriteItem(item).value;
      assert x.tag == "directions" && |x.children| == 1;
      assert x.children[0].tag == "octave-shift" && x.children[0].children == [];
      assert XmlEvents(x.children) == XmlEventsOf(x.children[0]) + XmlEvents([]);
  }

  /** The events of the sequences of a bar part, sequence by sequence, each in the order
      `iter_events` visits them. */
  function SequencesEvents(sqs: seq<Sequence>): seq<Event> {
    if sqs == [] then [] else IterEvents(sqs[0].items) + SequencesEvents(sqs[1..])
  }

  /** The events of one part, bar by bar: the order the writers walk them. */
  function PartEvents(bars: seq<Bar>, partId: string): seq<Event> {
    if bars == [] then []
    else
      (match LookupBarPart(bars[0].barParts, partId)
       case None => []
       case Some(bp) => SequencesEvents(bp.sequences))
      + PartEvents(bars[1..], partId)
  }

  // ---------------------------------------------------------------------------------------
  // write_parts, write_bar_part, write_directions, write_global, the document

  /** `write_direction` for a clef: `sign` and `line` as attributes; lxml refuses a missing
      value with a TypeError. */
  function WriteClef(c: Clef): (r: Result<Xml>)
    ensures r.Ok? <==> c.sign.Some? && c.line.Some?
    ensures r.Ok? ==> r.value == Leaf("clef", map["sign" := c.sign.value, "line" := c.line.value])
  {
    if c.sign.None? || c.line.None? then Err(InternalError("TypeError: Argument must be bytes or unicode, got 'NoneType'"))
    else Ok(Leaf("clef", map["sign" := c.sign.value, "line" := c.line.value]))
  }

  /** `write_directions`: one `<directions>` holding the clefs, or nothing without clefs. */
  function WriteDirections(cs: seq<Clef>): Result<seq<Xml>> {
    if cs == [] then Ok([])
    else
      var els :- MapOk(cs, WriteClef);
      Ok([Xml("directions", map[], None, els)])
  }

  /** `write_sequence`. */
  function WriteSequence(sq: Sequence): Result<Xml> {
    var items :- WriteItems(sq.items);
    Ok(Xml("sequence", map[], None, items))
  }

  /** `write_bar_part`: a `<measure>` with the clef directions, then one `<sequence>` per
      voice. */
  function WriteBarPart(bp: BarPart): (r: Result<Xml>)
    ensures r.Ok? ==> r.value.tag == "measure"
    ensures r.Ok? ==> |r.value.children| == |bp.sequences| + (if bp.directions == [] then 0 else 1)
  {
    var dirs :- WriteDirections(bp.directions);
    var seqs :- MapOk(bp.sequences, WriteSequence);
    Ok(Xml("measure", map[], None, dirs + seqs))
  }

  /** A bar part is written exactly when all its clefs and sequences are; the measure holds
      one `<directions>` with the clefs in order when there are any, then the sequences in
      order. */
  lemma BarPartWritten(bp: BarPart)
    ensures WriteBarPart(bp).Ok? <==>
      && (forall k :: 0 <= k < |bp.directions| ==> WriteClef(bp.directions[k]).Ok?)
      && (forall k :: 0 <= k < |bp.sequences| ==> WriteSequence(bp.sequences[k]).Ok?)
    ensures WriteBarPart(bp).Ok? ==> var x := WriteBarPart(bp).value; var d := if bp.directions == [] then 0 else 1;
      forall k :: 0 <= k < |bp.sequences| ==> WriteSequence(bp.sequences[k]) == Ok(x.children[d + k])
    ensures WriteBarPart(bp).Ok? && bp.directions != [] ==> var x := WriteBarPart(bp).value;
      && x.children[0].tag == "directions"
      && |x.children[0].children| == |bp.directions|
      && forall k :: 0 <= k < |bp.directions| ==> WriteClef(bp.directions[k]) == Ok(x.children[0].children[k])
  {
    BarPartWrittenWhen(bp);
    if WriteBarPart(bp).Ok? {
      BarPartSequencesWritten(bp);
      if bp.directions != [] {
        BarPartDirectionsWritten(bp);
      }
    }
  }

  lemma BarPartWrittenWhen(bp: BarPart)
    ensures WriteBarPart(bp).Ok? <==>
      && (forall k :: 0 <= k < |bp.directions| ==> WriteClef(bp.directions[k]).Ok?)
      && (forall k :: 0 <= k < |bp.sequences| ==> WriteSequence(bp.sequences[k]).Ok?)
  {
    assert WriteDirections(bp.directions).Ok? <==> MapOk(bp.directions, WriteClef).Ok?;
  }

  lemma BarPartSequencesWritten(bp: BarPart)
    requires WriteBarPart(bp).Ok?
    ensures var x := WriteBarPart(bp).value; var d := if bp.directions == [] then 0 else 1;
      forall k :: 0 <= k < |bp.sequences| ==> WriteSequence(bp.sequences[k]) == Ok(x.children[d + k])
  {
    var dirs := WriteDirections(bp.directions).value;
    var seqs := MapOk(bp.sequences, WriteSequence).value;
    var x := WriteBarPart(bp).value;
    assert x.children == dirs + seqs;
    assert |dirs| == if bp.directions == [] then 0 else 1;
    MapOkAfter(bp.sequences, WriteSequence, dirs, seqs, x.children);
  }

  lemma BarPartDirectionsWritten(bp: BarPart)
    requires WriteBarPart(bp).Ok? && bp.directions != []
    ensures var x := WriteBarPart(bp).value;
      && x.children[0].tag == "directions"
      && |x.children[0].children| == |bp.directions|
      && forall k :: 0 <= k < |bp.directions| ==> WriteClef(bp.directions[k]) == Ok(x.children[0].children[k])
  {
    var x := WriteBarPart(bp).value;
    assert x.children[0] == Xml("directions", map[], None, MapOk(bp.directions, WriteClef).value);
  }

  /** What `MapOk` maps, found again after a prefix. */
  lemma MapOkAfter<A, B>(xs: seq<A>, f: A -> Result<B>, prefix: seq<B>, ys: seq<B>, children: seq<B>)
    requires MapOk(xs, f) == Ok(ys) && children == prefix + ys
    ensures forall k :: 0 <= k < |xs| ==> f(xs[k]) == Ok(children[|prefix| + k])
  {
    assert forall k :: 0 <= k < |xs| ==> children[|prefix| + k] == ys[k];
  }

  /** The bar holds a bar part for `partId`, and it can be written. */
  predicate BarWritable(bar: Bar, partId: string) {
    LookupBarPart(bar.barParts, partId).Some? && WriteBarPart(LookupBarPart(bar.barParts, partId).value).Ok?
  }

  /** `x` is the bar part for `partId` of the bar, written. */
  predicate BarWrites(bar: Bar, partId: string, x: Xml) {
    LookupBarPart(bar.barParts, partId).Some? && WriteBarPart(LookupBarPart(bar.barParts, partId).value) == Ok(x)
  }

  /** The measure one bar gives a part: its bar part written; a bar without that part is
      a KeyError. */
  function MeasureOf(bar: Bar, partId: string): (r: Result<Xml>)
    ensures r.Ok? <==> BarWritable(bar, partId)
    ensures r.Ok? ==> BarWrites(bar, partId, r.value) && r.value.tag == "measure"
  {
    match LookupBarPart(bar.barParts, partId)
    case None => Err(InternalError("KeyError: '" + partId + "'"))
    case Some(bp) => WriteBarPart(bp)
  }

  /** Every bar is writable exactly when the first is and every later one is. */
  lemma BarsWritableCons(bars: seq<Bar>, partId: string)
    requires bars != []
    ensures (forall i :: 0 <= i < |bars| ==> BarWritable(bars[i], partId)) <==>
      BarWritable(bars[0], partId) && forall i :: 0 <= i < |bars[1..]| ==> BarWritable(bars[1..][i], partId)
  {
    if forall i :: 0 <= i < |bars[1..]| ==> BarWritable(bars[1..][i], partId) {
      forall i | 1 <= i < |bars| ensures BarWritable(bars[i], partId) {
        assert bars[i] == bars[1..][i - 1];
      }
    }
  }

  /** The measures of a part, one per bar; a bar without that part is a KeyError. */
  function WritePartMeasures(bars: seq<Bar>, partId: string): (r: Result<seq<Xml>>)
    ensures r.Ok? <==> forall i :: 0 <= i < |bars| ==> BarWritable(bars[i], partId)
    ensures r.Ok? ==> |r.value| == |bars|
    ensures r.Ok? ==> forall i :: 0 <= i < |bars| ==> r.value[i].tag == "measure"
    ensures r.Ok? ==> forall i :: 0 <= i < |bars| ==> BarWrites(bars[i], partId, r.value[i])
  {
    if bars == [] then Ok([])
    else
      BarsWritableCons(bars, partId);
      var m :- MeasureOf(bars[0], partId);
      var rest :- WritePartMeasures(bars[1..], partId);
      MeasuresCons(bars, partId, m, rest);
      Ok([m] + rest)
  }

  /** One more measure in front: measure i is still bar i's bar part written. */
  lemma MeasuresCons(bars: seq<Bar>, partId: string, m: Xml, rest: seq<Xml>)
    requires bars != [] && MeasureOf(bars[0], partId) == Ok(m) && |rest| == |bars| - 1
    requires forall i :: 0 <= i < |rest| ==> rest[i].tag == "measure"
    requires forall i :: 0 <= i < |rest| ==> BarWrites(bars[1..][i], partId, rest[i])
    ensures forall i :: 0 <= i < |bars| ==> ([m] + rest)[i].tag == "measure"
    ensures forall i :: 0 <= i < |bars| ==> BarWrites(bars[i], partId, ([m] + rest)[i])
  {
    var r := [m] + rest;
    forall i | 0 <= i < |bars| ensures r[i].tag == "measure" && BarWrites(bars[i], partId, r[i]) {
      if i == 0 {
        assert r[0] == m;
      } else {
        assert bars[i] == bars[1..][i - 1] && r[i] == rest[i - 1];
      }
    }
  }

  /** How many `<part-name>` children a written part starts with. */
  function NameCount(part: Part): nat {
    if part.name.Some? then 1 else 0
  }

  /** `write_part`: a `<part>` with a `<part-name>` when the part has a name (its text only
      when the name is not empty), then one measure per bar. */
  function WritePart(bars: seq<Bar>, part: Part): (r: Result<Xml>)
    ensures r.Ok? <==> WritePartMeasures(bars, part.partId).Ok?
    ensures r.Ok? ==> r.value.tag == "part"
    ensures r.Ok? ==> |r.value.children| == |bars| + NameCount(part)
    ensures r.Ok? && part.name.Some? ==>
      && r.value.children[0].tag == "part-name" && r.value.children[0].children == []
      && r.value.children[0].text == (if part.name.value == "" then None else Some(part.name.value))
  {
    var measures :- WritePartMeasures(bars, part.partId);
    var name := if part.name.None? then []
                else [Xml("part-name", map[], if part.name.value == "" then None else Some(part.name.value), [])];
    Ok(Xml("part", map[], None, name + measures))
  }

  /** After its name, a written part holds the part's measures, one per bar in order. */
  lemma PartHoldsMeasures(bars: seq<Bar>, part: Part)
    requires WritePart(bars, part).Ok?
    ensures var x := WritePart(bars, part).value;
      NameCount(part) <= |x.children| && WritePartMeasures(bars, part.partId) == Ok(x.children[NameCount(part)..])
  {
    var measures := WritePartMeasures(bars, part.partId).value;
    var x := WritePart(bars, part).value;
    var off := NameCount(part);
    var name := if part.name.None? then []
                else [Xml("part-name", map[], if part.name.value == "" then None else Some(part.name.value), [])];
    assert x.children == name + measures && |name| == off;
    assert x.children[off..] == measures;
  }

  /** Measures written for the bars still match them after `off` other children. */
  lemma WritesAfter(bars: seq<Bar>, partId: string, children: seq<Xml>, off: nat, measures: seq<Xml>)
    requires |measures| == |bars| && off <= |children| && children[off..] == measures
    requires forall i :: 0 <= i < |bars| ==> BarWrites(bars[i], partId, measures[i])
    ensures forall i :: 0 <= i < |bars| ==> BarWrites(bars[i], partId, children[off + i])
  {
    assert forall i :: 0 <= i < |bars| ==> children[off + i] == measures[i];
  }

  /** The measure headers of bars `from..`. */
  function WriteHeaders(bars: seq<Bar>, from: nat): (r: Result<seq<Xml>>)
    requires from <= |bars|
    ensures r.Ok? ==> |r.value| == |bars| - from
    ensures r.Ok? ==> forall i :: from <= i < |bars| ==> GetMeasureHeader(bars, i) == Ok(r.value[i - from])
    decreases |bars| - from
  {
    if from == |bars| then Ok([])
    else
      var x :- GetMeasureHeader(bars, from);
      var rest :- WriteHeaders(bars, from + 1);
      Ok([x] + rest)
  }

  /** `get_filedata` up to serialisation: `<mnx>` holding `<global>` with one header per bar,
      then one `<part>` per part. */
  function WriteDocument(score: Score): Result<Xml> {
    var headers :- WriteHeaders(score.bars, 0);
    var parts :- MapOk(score.parts, p => WritePart(score.bars, p));
    Ok(Xml("mnx", map[], None, [Xml("global", map[], None, headers)] + parts))
  }

  /** A written document holds `<global>`, with the header of each bar in order, then one
      child per part. */
  lemma DocumentGlobal(score: Score)
    requires WriteDocument(score).Ok?
    ensures var x := WriteDocument(score).value;
      && |x.children| == 1 + |score.parts|
      && x.children[0].tag == "global" && |x.children[0].children| == |score.bars|
      && (forall i :: 0 <= i < |score.bars| ==> GetMeasureHeader(score.bars, i) == Ok(x.children[0].children[i]))
  {
  }

  /** Each part is written as a `<part>` with one measure per bar, after its name. */
  lemma DocumentParts(score: Score)
    requires WriteDocument(score).Ok?
    ensures var x := WriteDocument(score).value;
      && |x.children| == 1 + |score.parts|
      && forall p :: 0 <= p < |score.parts| ==>
           && WritePart(score.bars, score.parts[p]) == Ok(x.children[1 + p])
           && x.children[1 + p].tag == "part"
           && |x.children[1 + p].children| == |score.bars| + NameCount(score.parts[p])
  {
    var x := WriteDocument(score).value;
    var parts := MapOk(score.parts, p => WritePart(score.bars, p)).value;
    assert x.children == [x.children[0]] + parts;
    assert forall p :: 0 <= p < |score.parts| ==> x.children[1 + p] == parts[p];
  }

  /** Measure `i` of part `p` in a written document is the bar part of part `p` in bar `i`,
      written. */
  lemma DocumentMeasure(score: Score, p: nat, i: nat)
    requires WriteDocument(score).Ok? && p < |score.parts| && i < |score.bars|
    ensures var part := WriteDocument(score).value.children[1 + p];
      var off := NameCount(score.parts[p]);
      var bp := LookupBarPart(score.bars[i].barParts, score.parts[p].partId);
      && bp.Some?
      && WriteBarPart(bp.value) == Ok(part.children[off + i])
  {
    DocumentParts(score);
    PartHoldsMeasures(score.bars, score.parts[p]);
    var part := WriteDocument(score).value.children[1 + p];
    var off := NameCount(score.parts[p]);
    WritesAfter(score.bars, score.parts[p].partId, part.children, off, part.children[off..]);
  }

  /** A part missing from any bar makes writing the document fail. */
  lemma MissingPartFails(score: Score, p: nat, j: nat)
    requires p < |score.parts| && j < |score.bars|
    requires LookupBarPart(score.bars[j].barParts, score.parts[p].partId).None?
    ensures WriteDocument(score).Err?
  {
    assert WritePartMeasures(score.bars, score.parts[p].partId).Err?;
    assert WritePart(score.bars, score.parts[p]).Err?;
  }

  // ---------------------------------------------------------------------------------------
  // Every event of a part is written once, bar by bar

  lemma {:induction false} SequencesWriteEachEvent(sqs: seq<Sequence>)
    requires MapOk(sqs, WriteSequence).Ok?
    ensures WrittenEvents(SequencesEvents(sqs)) == Ok(XmlEvents(MapOk(sqs, WriteSequence).value))
  {
    if sqs != [] {
      var x := WriteSequence(sqs[0]).value;
      var rest := MapOk(sqs[1..], WriteSequence).value;
      ItemsWriteEachEvent(sqs[0].items);
      SequencesWriteEachEvent(sqs[1..]);
      assert MapOk(sqs, WriteSequence).value == [x] + rest;
      XmlEventsAppend([x], rest);
      assert XmlEvents([x]) == XmlEventsOf(x) == XmlEvents(WriteItems(sqs[0].items).value);
      MapOkAppend(IterEvents(sqs[0].items), SequencesEvents(sqs[1..]), WriteEvent);
    }
  }

  /** Written clefs hold no event. */
  lemma {:induction false} ClefsWriteNoEvent(cs: seq<Clef>)
    requires MapOk(cs, WriteClef).Ok?
    ensures XmlEvents(MapOk(cs, WriteClef).value) == []
  {
    if cs != [] {
      var x := WriteClef(cs[0]).value;
      var rest := MapOk(cs[1..], WriteClef).value;
      ClefsWriteNoEvent(cs[1..]);
      assert MapOk(cs, WriteClef).value == [x] + rest;
      XmlEventsAppend([x], rest);
      assert XmlEvents([x]) == XmlEventsOf(x) + XmlEvents([]);
    }
  }

  /** A written bar part holds the events of its sequences, each once, in order; its clef
      directions hold none. */
  lemma BarPartWritesEachEvent(bp: BarPart)
    requires WriteBarPart(bp).Ok?
    ensures WrittenEvents(SequencesEvents(bp.sequences)) == Ok(XmlEventsOf(WriteBarPart(bp).value))
  {
    var dirs := WriteDirections(bp.directions).value;
    var seqs := MapOk(bp.sequences, WriteSequence).value;
    var x := WriteBarPart(bp).value;
    assert x.tag == "measure" && x.children == dirs + seqs;
    DirectionsWriteNoEvent(bp.directions);
    SequencesWriteEachEvent(bp.sequences);
    XmlEventsAppend(dirs, seqs);
    assert XmlEvents(x.children) == XmlEvents(seqs);
  }

  /** The written clef directions hold no event. */
  lemma DirectionsWriteNoEvent(cs: seq<Clef>)
    requires WriteDirections(cs).Ok?
    ensures XmlEvents(WriteDirections(cs).value) == []
  {
    if cs != [] {
      ClefsWriteNoEvent(cs);
      var d := WriteDirections(cs).value[0];
      assert d.tag == "directions" && d.children == MapOk(cs, WriteClef).value;
      assert XmlEventsOf(d) == [];
      assert XmlEvents([d]) == XmlEventsOf(d) + XmlEvents([]);
    }
  }

  lemma {:induction false} MeasuresWriteEachEvent(bars: seq<Bar>, partId: string)
    requires WritePartMeasures(bars, partId).Ok?
    ensures WrittenEvents(PartEvents(bars, partId)) == Ok(XmlEvents(WritePartMeasures(bars, partId).value))
  {
    if bars != [] {
      var bp := LookupBarPart(bars[0].barParts, partId).value;
      var m := WriteBarPart(bp).value;
      var rest := WritePartMeasures(bars[1..], partId).value;
      BarPartWritesEachEvent(bp);
      MeasuresWriteEachEvent(bars[1..], partId);
      assert WritePartMeasures(bars, partId).value == [m] + rest;
      XmlEventsAppend([m], rest);
      assert XmlEvents([m]) == XmlEventsOf(m) + XmlEvents([]);
      MapOkAppend(SequencesEvents(bp.sequences), PartEvents(bars[1..], partId), WriteEvent);
    }
  }

  /** A written part holds the events of its bar parts, bar by bar, each once; its name
      holds none. */
  lemma PartWritesEachEvent(bars: seq<Bar>, part: Part)
    requires WritePart(bars, part).Ok?
    ensures WrittenEvents(PartEvents(bars, part.partId)) == Ok(XmlEventsOf(WritePart(bars, part).value))
  {
    var measures := WritePartMeasures(bars, part.partId).value;
    var name := if part.name.None? then []
                else [Xml("part-name", map[], if part.name.value == "" then None else Some(part.name.value), [])];
    var x := WritePart(bars, part).value;
    assert x.tag == "part" && x.children == name + measures;
    MeasuresWriteEachEvent(bars, part.partId);
    XmlEventsAppend(name, measures);
    if name != [] {
      assert XmlEvents(name) == XmlEventsOf(name[0]) + XmlEvents([]);
    }
    assert XmlEvents(x.children) == XmlEvents(measures);
  }

  /** In a written document, part `p` holds the events of that part, bar by bar, each once. */
  lemma DocumentPartEvents(score: Score, p: nat)
    requires WriteDocument(score).Ok? && p < |score.parts|
    ensures WrittenEvents(PartEvents(score.bars, score.parts[p].partId)) == Ok(XmlEventsOf(WriteDocument(score).value.children[1 + p]))
  {
    DocumentParts(score);
    PartWritesEachEvent(score.bars, score.parts[p]);
  }
}
