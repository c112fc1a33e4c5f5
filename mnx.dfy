/** The JSON flavour of MNX (`MNXWriter`): every part of the score becomes a JSON value built
    from plain objects, arrays, strings and integers. The value is modelled up to
    serialisation; objects are maps, since the document is written with sorted keys. */
module Mnx {
  import opened Wrappers
  import opened Text
  import opened Fractions
  import opened ScoreModel
  import MusicXmlFields
  import MnxCommon

  datatype Json =
    | JNull
    | JBool(b: bool)
    | JInt(i: int)
    | JString(s: string)
    | JArray(elems: seq<Json>)
    | JObject(fields: map<string, Json>)

  /** `obj.get(key)` on an object; None for a missing key or a value that is not an object. */
  function Field(j: Json, key: string): Option<Json> {
    if j.JObject? && key in j.fields then Some(j.fields[key]) else None
  }

  /** What the writer reads from the score that the score graph does not hold: which events
      are referenced, which events are rests, and the positioned clefs of each bar part. */
  datatype Extensions = Extensions(referencedEvents: set<nat>, restEvents: set<nat>,
                                   clefs: BarPart -> seq<PositionedClef>)

  /** A clef placed at a rhythmic position within its measure. */
  datatype PositionedClef = PositionedClef(sign: Option<string>, clefPosition: Option<int>, position: Frac)

  // ---------------------------------------------------------------------------------------
  // NOTE_VALUE_BASES, encode_note_value

  /** Note values by their length in whole notes, from the duplex maxima down to the
      4096th; the keys are fractions in lowest terms. */
  const NOTE_VALUE_BASES: map<Rational, string> := map[
    Rational(16, 1) := "duplexMaxima", Rational(8, 1) := "maxima", Rational(4, 1) := "longa",
    Rational(2, 1) := "breve", Rational(1, 1) := "whole", Rational(1, 2) := "half",
    Rational(1, 4) := "quarter", Rational(1, 8) := "eighth", Rational(1, 16) := "16th",
    Rational(1, 32) := "32nd", Rational(1, 64) := "64th", Rational(1, 128) := "128th",
    Rational(1, 256) := "256th", Rational(1, 512) := "512th", Rational(1, 1024) := "1024th",
    Rational(1, 2048) := "2048th", Rational(1, 4096) := "4096th"]

  /** The lengths of the note-value names, for reading a written duration back. */
  const NOTE_VALUE_OF_BASE: map<string, Rational> := map[
    "duplexMaxima" := Rational(16, 1), "maxima" := Rational(8, 1), "longa" := Rational(4, 1),
    "breve" := Rational(2, 1), "whole" := Rational(1, 1), "half" := Rational(1, 2),
    "quarter" := Rational(1, 4), "eighth" := Rational(1, 8), "16th" := Rational(1, 16),
    "32nd" := Rational(1, 32), "64th" := Rational(1, 64), "128th" := Rational(1, 128),
    "256th" := Rational(1, 256), "512th" := Rational(1, 512), "1024th" := Rational(1, 1024),
    "2048th" := Rational(1, 2048), "4096th" := Rational(1, 4096)]

  /** 2 to the power `e`: 1 at zero, even above it, and always above `e`. */
  function Pow2(e: nat): (p: nat)
    ensures p > 0 && p > e
    ensures e == 0 ==> p == 1
    ensures e > 0 ==> p % 2 == 0
  {
    if e == 0 then 1 else 2 * Pow2(e - 1)
  }

  /** 2 to the power `e`, as a fraction in lowest terms. */
  function Pow2Frac(e: int): Rational {
    if e >= 0 then Rational(Pow2(e), 1) else Rational(1, Pow2(-e))
  }

  /** The note values are the powers of two from 2^-12 to 2^4. */
  lemma NoteValueBasesArePowersOfTwo(e: int)
    requires -12 <= e <= 4
    ensures Pow2Frac(e) in NOTE_VALUE_BASES
  {
    if e >= 0 {
      assert e in {0, 1, 2, 3, 4};
    } else {
      var n := -e;
      assert Pow2(n) in {2, 4, 8, 16, 32, 64, 128, 256, 512, 1024, 2048, 4096} by {
        assert n in {1, 2, 3, 4, 5, 6, 7, 8, 9, 10, 11, 12};
      }
    }
  }

  /** Every note value is in lowest terms, as the fractions it is looked up by. */
  lemma NoteValueBasesAreCanonical(v: Rational)
    requires v in NOTE_VALUE_BASES
    ensures Canonical(v)
  {
    if v.num == 1 {
      GcdWithOne(v.den);
    } else {
      GcdWithOne(v.num);
    }
  }

  lemma GcdWithOne(n: nat)
    requires n > 0
    ensures Gcd(1, n) == 1 && Gcd(n, 1) == 1
  {
    assert Gcd(n, 1) == Gcd(1, 0);
    if n > 1 {
      assert 1 % n == 1;
    }
  }

  /** Each note value has a name of its own, which reads back as that value. */
  lemma NoteValueNamesInvert(v: Rational)
    requires v in NOTE_VALUE_BASES
    ensures NOTE_VALUE_BASES[v] in NOTE_VALUE_OF_BASE && NOTE_VALUE_OF_BASE[NOTE_VALUE_BASES[v]] == v
  {
  }

  /** Every note type the MusicXML reader accepts has a note value. */
  lemma RhythmTypesHaveNoteValues(t: string)
    requires t in MusicXmlFields.RHYTHM_TYPES
    ensures var (n, d) := MusicXmlFields.RHYTHM_TYPES[t]; Rational(n, d) in NOTE_VALUE_BASES
  {
    var p := MusicXmlFields.RHYTHM_TYPES[t];
    assert p in {(2, 1), (1, 1), (1, 2), (1, 4), (1, 8), (1, 16), (1, 32), (1, 64), (1, 128),
                 (1, 256), (1, 512), (1, 1024)};
  }

  /** `encode_note_value`: the name of the duration's length, and `dots` when there are any;
      a length without a name, or no length at all, is a ValueError. */
  function EncodeNoteValue(d: RhythmicDuration): (r: Result<Json>)
    ensures r.Ok? <==> d.frac.Some? && Reduce(d.frac.value.num, d.frac.value.den) in NOTE_VALUE_BASES
    ensures r.Ok? ==> (Field(r.value, "dots").Some? <==> d.dots != 0)
  {
    match d.frac
    case None => Err(InternalError("ValueError: Invalid duration fraction None"))
    case Some(f) =>
      var v := Reduce(f.num, f.den);
      if v !in NOTE_VALUE_BASES then Err(InternalError("ValueError: Invalid duration fraction"))
      else
        Ok(JObject(map["base" := JString(NOTE_VALUE_BASES[v])]
                   + (if d.dots != 0 then map["dots" := JInt(d.dots)] else map[])))
  }

  /** Reads a written note value back: the length its name stands for, and its dots (none
      when `dots` is absent). */
  function ReadNoteValue(j: Json): Option<(Rational, nat)> {
    match Field(j, "base")
    case Some(JString(b)) =>
      if b !in NOTE_VALUE_OF_BASE then None
      else
        (match Field(j, "dots")
         case None => Some((NOTE_VALUE_OF_BASE[b], 0))
         case Some(JInt(n)) => if n >= 0 then Some((NOTE_VALUE_OF_BASE[b], n)) else None
         case Some(_) => None)
    case _ => None
  }

  /** A written note value reads back as the duration's length in lowest terms and its dots. */
  lemma NoteValueReadsBack(d: RhythmicDuration)
    requires EncodeNoteValue(d).Ok?
    ensures ReadNoteValue(EncodeNoteValue(d).value) == Some((Reduce(d.frac.value.num, d.frac.value.den), d.dots))
  {
    NoteValueNamesInvert(Reduce(d.frac.value.num, d.frac.value.den));
  }

  // ---------------------------------------------------------------------------------------
  // encode_pitch, encode_note

  /** `encode_pitch`: step and octave, and `alter` only when it is not zero. */
  function EncodePitch(p: Pitch): (r: Json)
    ensures Field(r, "step") == Some(JString(p.step))
    ensures Field(r, "octave") == Some(JInt(p.octave))
    ensures Field(r, "alter").Some? <==> p.alter != 0
  {
    JObject(map["step" := JString(p.step), "octave" := JInt(p.octave)]
            + (if p.alter != 0 then map["alter" := JInt(p.alter)] else map[]))
  }

  /** Reads a written pitch back, with an absent `alter` as zero. */
  function ReadPitch(j: Json): Option<Pitch> {
    match (Field(j, "step"), Field(j, "octave"), Field(j, "alter"))
    case (Some(JString(s)), Some(JInt(o)), None) => Some(Pitch(s, o, 0))
    case (Some(JString(s)), Some(JInt(o)), Some(JInt(a))) => Some(Pitch(s, o, a))
    case _ => None
  }

  /** A written pitch reads back as the pitch. */
  lemma PitchReadsBack(p: Pitch)
    ensures ReadPitch(EncodePitch(p)) == Some(p)
  {
  }

  /** `encode_note`: the pitch, the note id when the note is referenced, the accidental
      display when an accidental is rendered, and the tie's target note. */
  function EncodeNote(n: Note): Json {
    JObject(map["pitch" := EncodePitch(n.pitch)]
            + (if n.isReferenced then map["id" := JString(MnxCommon.NoteId(n.number))] else map[])
            + NoteMarks(n))
  }

  /** The accidental display and the tie of a note. */
  function NoteMarks(n: Note): map<string, Json> {
    (if n.renderedAcc.Some? && n.renderedAcc.value != 0
     then map["accidentalDisplay" := JObject(map["show" := JBool(true)])] else map[])
    + (if n.tieEndNote.Some?
       then map["tied" := JObject(map["target" := JString(MnxCommon.NoteId(n.tieEndNote.value))])]
       else map[])
  }

  /** A written note has its pitch, and its id exactly when it is referenced. */
  lemma EncodeNotePitchAndId(n: Note)
    ensures ReadPitch(Field(EncodeNote(n), "pitch").value) == Some(n.pitch)
    ensures Field(EncodeNote(n), "id") == (if n.isReferenced then Some(JString(MnxCommon.NoteId(n.number))) else None)
  {
    assert NoteMarks(n).Keys <= {"accidentalDisplay", "tied"};
    PitchReadsBack(n.pitch);
  }

  /** A written note shows an accidental exactly when one is rendered, and names the note
      ending its tie exactly when a tie starts on it. */
  lemma EncodeNoteMarks(n: Note)
    ensures Field(EncodeNote(n), "accidentalDisplay").Some? <==> n.renderedAcc.Some? && n.renderedAcc.value != 0
    ensures Field(EncodeNote(n), "tied") ==
      (if n.tieEndNote.Some? then Some(JObject(map["target" := JString(MnxCommon.NoteId(n.tieEndNote.value))])) else None)
  {
  }

  /** One entry of an event's `notes`: a rest has no pitch, an AttributeError. */
  function EncodeNoteItem(item: EventItem): (r: Result<Json>)
    ensures r.Ok? <==> item.NoteItem?
  {
    match item
    case NoteItem(n) => Ok(EncodeNote(n))
    case RestItem(_) => Err(InternalError("AttributeError: 'Rest' object has no attribute 'pitch'"))
  }

  // ---------------------------------------------------------------------------------------
  // encode_slur

  /** The fields of a slur that is written, before its side; None when it is dropped. */
  function SlurFields(s: Slur): Option<map<string, Json>> {
    if s.isIncomplete then
      if s.incompleteType.Some? && s.incompleteType.value in MnxCommon.SLUR_INCOMPLETE_LOCATIONS_FOR_EXPORT then
        Some(map["location" := JString(MnxCommon.SLUR_INCOMPLETE_LOCATIONS_FOR_EXPORT[s.incompleteType.value])])
      else None
    else if s.endEventId.None? then None
    else
      Some(map["target" := JString(MnxCommon.EventId(s.endEventId.value))]
           + (if s.startNote.Some? then map["start-note" := JString(MnxCommon.NoteId(s.startNote.value))] else map[])
           + (if s.endNote.Some? then map["end-note" := JString(MnxCommon.NoteId(s.endNote.value))] else map[]))
  }

  /** `encode_slur`: None when the slur is dropped; a side missing from the table is a
      KeyError. */
  function EncodeSlur(s: Slur): Result<Option<Json>> {
    match SlurFields(s)
    case None => Ok(None)
    case Some(fields) =>
      if s.side.None? then Ok(Some(JObject(fields)))
      else
        var side :- MnxCommon.Lookup(MnxCommon.SLUR_SIDES_FOR_EXPORT, s.side.value);
        Ok(Some(JObject(fields["side" := JString(side)])))
  }

  /** A JSON object of string values with the same entries as an attribute map. */
  predicate SameEntries(fields: map<string, Json>, attrs: map<string, string>) {
    && fields.Keys == attrs.Keys
    && forall k :: k in attrs ==> fields[k] == JString(attrs[k])
  }

  /** Before its side, a slur has the same entries in JSON as in XML. */
  lemma SlurFieldsMatchAttrs(s: Slur)
    ensures SlurFields(s).Some? <==> MnxCommon.SlurAttrs(s).Some?
    ensures SlurFields(s).Some? ==> SameEntries(SlurFields(s).value, MnxCommon.SlurAttrs(s).value)
  {
    if SlurFields(s).Some? && !s.isIncomplete {
      CompleteSlurFieldsMatch(s);
    }
  }

  lemma CompleteSlurFieldsMatch(s: Slur)
    requires !s.isIncomplete && s.endEventId.Some?
    ensures SameEntries(SlurFields(s).value, MnxCommon.SlurAttrs(s).value)
  {
    var f, a := SlurFields(s).value, MnxCommon.SlurAttrs(s).value;
    MnxCommon.SlurAttrsKeys(s);
    MnxCommon.SlurAttrsNotes(s);
    CompleteSlurFields(s);
  }

  lemma CompleteSlurFields(s: Slur)
    requires !s.isIncomplete && s.endEventId.Some?
    ensures SlurFields(s).value.Keys ==
      {"target"} + (if s.startNote.Some? then {"start-note"} else {}) + (if s.endNote.Some? then {"end-note"} else {})
    ensures SlurFields(s).value["target"] == JString(MnxCommon.EventId(s.endEventId.value))
    ensures s.startNote.Some? ==> SlurFields(s).value["start-note"] == JString(MnxCommon.NoteId(s.startNote.value))
    ensures s.endNote.Some? ==> SlurFields(s).value["end-note"] == JString(MnxCommon.NoteId(s.endNote.value))
  {
  }

  /** The JSON and the XML writer drop the same slurs, fail on the same slurs, and write the
      others with the same entries. */
  lemma SlurMatchesXml(s: Slur)
    ensures EncodeSlur(s).Ok? <==> MnxCommon.WriteSlur(s).Ok?
    ensures EncodeSlur(s).Ok? ==> (EncodeSlur(s).value.None? <==> MnxCommon.WriteSlur(s).value.None?)
    ensures EncodeSlur(s).Ok? && EncodeSlur(s).value.Some? ==>
      && EncodeSlur(s).value.value.JObject?
      && SameEntries(EncodeSlur(s).value.value.fields, MnxCommon.WriteSlur(s).value.value.attrs)
  {
    SlurFieldsMatchAttrs(s);
  }

  /** The encoded slurs that are not dropped, in order; the first failure ends the list. */
  function EncodeSlurs(slurs: seq<Slur>): (r: Result<seq<Json>>)
    ensures r.Ok? <==> forall i :: 0 <= i < |slurs| ==> EncodeSlur(slurs[i]).Ok?
    ensures r.Ok? ==> |r.value| <= |slurs|
  {
    if slurs == [] then Ok([])
    else
      var j :- EncodeSlur(slurs[0]);
      var rest :- EncodeSlurs(slurs[1..]);
      assert forall i :: 0 < i < |slurs| ==> slurs[i] == slurs[1..][i - 1];
      Ok((if j.Some? then [j.value] else []) + rest)
  }

  /** Encoding two lists of slurs one after the other encodes their concatenation. */
  lemma EncodeSlursAppend(a: seq<Slur>, b: seq<Slur>)
    ensures EncodeSlurs(a + b).Ok? <==> EncodeSlurs(a).Ok? && EncodeSlurs(b).Ok?
    ensures EncodeSlurs(a + b).Ok? ==> EncodeSlurs(a + b).value == EncodeSlurs(a).value + EncodeSlurs(b).value
  {
    var ab := a + b;
    assert forall i :: 0 <= i < |a| ==> ab[i] == a[i];
    assert forall j :: 0 <= j < |b| ==> ab[|a| + j] == b[j];
    if EncodeSlurs(ab).Ok? {
      EncodeSlursAppendValue(a, b);
    }
  }

  lemma {:induction false} EncodeSlursAppendValue(a: seq<Slur>, b: seq<Slur>)
    requires EncodeSlurs(a).Ok? && EncodeSlurs(b).Ok? && EncodeSlurs(a + b).Ok?
    ensures EncodeSlurs(a + b).value == EncodeSlurs(a).value + EncodeSlurs(b).value
  {
    if a == [] {
      assert a + b == b;
    } else {
      var ab := a + b;
      assert ab[0] == a[0] && ab[1..] == a[1..] + b;
      var x := EncodeSlur(a[0]);
      var ra, rab := EncodeSlurs(a[1..]), EncodeSlurs(a[1..] + b);
      assert x.Ok? && ra.Ok? && rab.Ok?;
      var head: seq<Json> := if x.value.Some? then [x.value.value] else [];
      assert EncodeSlurs(a).value == head + ra.value;
      assert EncodeSlurs(ab).value == head + rab.value;
      EncodeSlursAppendValue(a[1..], b);
      MnxCommon.ConcatAssoc(head, ra.value, EncodeSlurs(b).value);
    }
  }

  /** One slur is encoded as its object, or as nothing when it is dropped. */
  lemma EncodeSlursOfOne(s: Slur)
    requires EncodeSlur(s).Ok?
    ensures EncodeSlurs([s]) == Ok(if EncodeSlur(s).value.Some? then [EncodeSlur(s).value.value] else [])
  {
    var one := [s];
    assert one[0] == s && one[1..] == [];
    assert EncodeSlurs(one[1..]) == Ok([]);
    var kept: seq<Json> := if EncodeSlur(s).value.Some? then [EncodeSlur(s).value.value] else [];
    assert kept + [] == kept;
  }

  /** The slur objects are exactly those of the slurs that are not dropped (the Nones that
      `encode_event` filters out), and when none is dropped, object i is slur i encoded. */
  lemma {:induction false} EncodeSlursKept(slurs: seq<Slur>)
    requires EncodeSlurs(slurs).Ok?
    ensures forall j :: j in EncodeSlurs(slurs).value <==>
      exists i :: 0 <= i < |slurs| && EncodeSlur(slurs[i]) == Ok(Some(j))
    ensures (forall i :: 0 <= i < |slurs| ==> EncodeSlur(slurs[i]).value.Some?) ==>
      && |EncodeSlurs(slurs).value| == |slurs|
      && forall i :: 0 <= i < |slurs| ==> EncodeSlurs(slurs).value[i] == EncodeSlur(slurs[i]).value.value
  {
    if slurs != [] {
      var rest := slurs[1..];
      EncodeSlursKept(rest);
      assert forall i :: 0 < i < |slurs| ==> slurs[i] == rest[i - 1];
      forall j | j in EncodeSlurs(slurs).value
        ensures exists i :: 0 <= i < |slurs| && EncodeSlur(slurs[i]) == Ok(Some(j))
      {
        if j !in EncodeSlurs(rest).value {
          assert EncodeSlur(slurs[0]) == Ok(Some(j));
        } else {
          var k :| 0 <= k < |rest| && EncodeSlur(rest[k]) == Ok(Some(j));
          assert EncodeSlur(slurs[k + 1]) == Ok(Some(j));
        }
      }
      forall j, i | 0 <= i < |slurs| && EncodeSlur(slurs[i]) == Ok(Some(j))
        ensures j in EncodeSlurs(slurs).value
      {
        if i > 0 {
          assert EncodeSlur(rest[i - 1]) == Ok(Some(j));
        }
      }
    }
  }

  /** Slur objects and `<slur>` elements that agree one for one. */
  predicate SlursAgree(js: seq<Json>, xs: seq<MnxCommon.Xml>) {
    && |js| == |xs|
    && forall i :: 0 <= i < |js| ==> js[i].JObject? && SameEntries(js[i].fields, xs[i].attrs)
  }

  lemma SlursAgreeAppend(hj: seq<Json>, tj: seq<Json>, hx: seq<MnxCommon.Xml>, tx: seq<MnxCommon.Xml>)
    requires SlursAgree(hj, hx) && SlursAgree(tj, tx)
    ensures SlursAgree(hj + tj, hx + tx)
  {
    var js, xs := hj + tj, hx + tx;
    forall i | 0 <= i < |js| ensures js[i].JObject? && SameEntries(js[i].fields, xs[i].attrs) {
      if i >= |hj| {
        assert js[i] == tj[i - |hj|] && xs[i] == tx[i - |hj|];
      } else {
        assert js[i] == hj[i] && xs[i] == hx[i];
      }
    }
  }

  /** Both writers keep the same slurs of an event, in the same order: the i-th slur object
      has the entries of the i-th `<slur>` element. */
  lemma {:induction false} SlursMatchXml(slurs: seq<Slur>)
    ensures EncodeSlurs(slurs).Ok? <==> MnxCommon.WriteSlurs(slurs).Ok?
    ensures EncodeSlurs(slurs).Ok? ==> SlursAgree(EncodeSlurs(slurs).value, MnxCommon.WriteSlurs(slurs).value)
  {
    if slurs != [] {
      SlurMatchesXml(slurs[0]);
      SlursMatchXml(slurs[1..]);
      if EncodeSlurs(slurs).Ok? {
        var j, x := EncodeSlur(slurs[0]).value, MnxCommon.WriteSlur(slurs[0]).value;
        var hj: seq<Json> := if j.Some? then [j.value] else [];
        var hx: seq<MnxCommon.Xml> := if x.Some? then [x.value] else [];
        assert SlursAgree(hj, hx);
        SlursAgreeAppend(hj, EncodeSlurs(slurs[1..]).value, hx, MnxCommon.WriteSlurs(slurs[1..]).value);
      }
    }
  }

  // ---------------------------------------------------------------------------------------
  // encode_event

  /** The `rest` marker of a rest, or the `notes` of any other event. */
  function EventContent(x: Extensions, e: Event): (r: Result<map<string, Json>>)
    ensures r.Ok? ==> r.value.Keys == if e.id in x.restEvents then {"rest"} else {"notes"}
  {
    if e.id in x.restEvents then Ok(map["rest" := JObject(map[])])
    else
      var notes :- MnxCommon.MapOk(e.eventItems, EncodeNoteItem);
      Ok(map["notes" := JArray(notes)])
  }

  /** `slurs` when the event has any, including when every one of them is dropped. */
  function EventSlurs(e: Event): (r: Result<map<string, Json>>)
    ensures r.Ok? ==> r.value.Keys == if e.slurs == [] then {} else {"slurs"}
    ensures r.Ok? <==> EncodeSlurs(e.slurs).Ok?
    ensures r.Ok? && e.slurs != [] ==> r.value["slurs"] == JArray(EncodeSlurs(e.slurs).value)
  {
    if e.slurs == [] then Ok(map[])
    else
      var slurs :- EncodeSlurs(e.slurs);
      Ok(map["slurs" := JArray(slurs)])
  }

  /** `encode_event`: the type, the note value, the id when the event is referenced, the
      rest marker or the notes, and the slurs. */
  function EncodeEvent(x: Extensions, e: Event): (r: Result<Json>)
    ensures r.Ok? ==> Field(r.value, "type") == Some(JString("event"))
  {
    var duration :- EncodeNoteValue(e.duration);
    var content :- EventContent(x, e);
    var slurs :- EventSlurs(e);
    EventFieldsHead(x, e, duration, content, slurs);
    Ok(JObject(EventFields(x, e, duration, content, slurs)))
  }

  function EventFields(x: Extensions, e: Event, duration: Json, content: map<string, Json>,
                       slurs: map<string, Json>): map<string, Json>
  {
    map["type" := JString("event"), "duration" := duration]
    + (if e.id in x.referencedEvents then map["id" := JString(MnxCommon.EventId(e.id))] else map[])
    + content + slurs
  }

  lemma EventFieldsHead(x: Extensions, e: Event, duration: Json, content: map<string, Json>,
                        slurs: map<string, Json>)
    requires content.Keys == if e.id in x.restEvents then {"rest"} else {"notes"}
    requires slurs.Keys == if e.slurs == [] then {} else {"slurs"}
    ensures var f := EventFields(x, e, duration, content, slurs);
      && "type" in f && f["type"] == JString("event")
      && "duration" in f && f["duration"] == duration
      && ("id" in f <==> e.id in x.referencedEvents)
      && (e.id in x.referencedEvents ==> f["id"] == JString(MnxCommon.EventId(e.id)))
  {
  }

  lemma EventFieldsBody(x: Extensions, e: Event, duration: Json, content: map<string, Json>,
                        slurs: map<string, Json>)
    requires content.Keys == if e.id in x.restEvents then {"rest"} else {"notes"}
    requires slurs.Keys == if e.slurs == [] then {} else {"slurs"}
    ensures var f := EventFields(x, e, duration, content, slurs);
      && ("rest" in f <==> e.id in x.restEvents)
      && ("notes" in f <==> e.id !in x.restEvents)
      && (e.id !in x.restEvents ==> f["notes"] == content["notes"])
      && ("slurs" in f <==> e.slurs != [])
  {
  }

  /** An event fails to be written exactly when its note value has no name, when a rest
      item sits among the notes of an event that is not a rest, or when a slur has an
      unknown side. */
  lemma EncodeEventFails(x: Extensions, e: Event)
    ensures EncodeEvent(x, e).Ok? <==>
      && EncodeNoteValue(e.duration).Ok?
      && (e.id !in x.restEvents ==> forall i :: 0 <= i < |e.eventItems| ==> e.eventItems[i].NoteItem?)
      && forall i :: 0 <= i < |e.slurs| ==> EncodeSlur(e.slurs[i]).Ok?
  {
  }

  /** A written event's duration reads back as its note value. */
  lemma EncodeEventDuration(x: Extensions, e: Event)
    requires EncodeEvent(x, e).Ok?
    ensures Field(EncodeEvent(x, e).value, "duration").Some?
    ensures ReadNoteValue(Field(EncodeEvent(x, e).value, "duration").value) ==
      Some((Reduce(e.duration.frac.value.num, e.duration.frac.value.den), e.duration.dots))
  {
    EventFieldsHead(x, e, EncodeNoteValue(e.duration).value, EventContent(x, e).value, EventSlurs(e).value);
    NoteValueReadsBack(e.duration);
  }

  /** A written event carries an `id` exactly when it is referenced. */
  lemma EncodeEventId(x: Extensions, e: Event)
    requires EncodeEvent(x, e).Ok?
    ensures Field(EncodeEvent(x, e).value, "id") == (if e.id in x.referencedEvents then Some(JString(MnxCommon.EventId(e.id))) else None)
  {
    EventFieldsHead(x, e, EncodeNoteValue(e.duration).value, EventContent(x, e).value, EventSlurs(e).value);
  }

  /** A rest carries `rest` and no `notes`, any other event `notes` and no `rest`; `slurs`
      appears exactly when the event has slurs. */
  lemma EncodeEventKeys(x: Extensions, e: Event)
    requires EncodeEvent(x, e).Ok?
    ensures Field(EncodeEvent(x, e).value, "rest").Some? <==> e.id in x.restEvents
    ensures Field(EncodeEvent(x, e).value, "notes").Some? <==> e.id !in x.restEvents
    ensures Field(EncodeEvent(x, e).value, "slurs").Some? <==> e.slurs != []
  {
    EventFieldsBody(x, e, EncodeNoteValue(e.duration).value, EventContent(x, e).value, EventSlurs(e).value);
  }

  /** The `slurs` of an encoded event are its slurs encoded as `EncodeSlurs` encodes them,
      and there are none when the event has no slurs. */
  lemma EncodeEventSlurs(x: Extensions, e: Event)
    requires EncodeEvent(x, e).Ok?
    ensures EncodeSlurs(e.slurs).Ok?
    ensures e.slurs == [] ==> Field(EncodeEvent(x, e).value, "slurs") == None
    ensures e.slurs != [] ==> Field(EncodeEvent(x, e).value, "slurs") == Some(JArray(EncodeSlurs(e.slurs).value))
  {
    var slurs := EventSlurs(e).value;
    EventFieldsBody(x, e, EncodeNoteValue(e.duration).value, EventContent(x, e).value, slurs);
    if e.slurs != [] {
      assert slurs == map["slurs" := JArray(EncodeSlurs(e.slurs).value)];
    }
  }

  /** An event's JSON `slurs` agree one for one with the `<slur>` children of its written
      `<event>`, which follow its notes and rests. */
  lemma EventSlursMatchXml(x: Extensions, e: Event)
    requires EncodeEvent(x, e).Ok? && MnxCommon.WriteEvent(e).Ok?
    ensures var xml := MnxCommon.WriteEvent(e).value;
      && |xml.children| >= |e.eventItems|
      && (e.slurs == [] ==> Field(EncodeEvent(x, e).value, "slurs") == None && |xml.children| == |e.eventItems|)
      && (e.slurs != [] ==>
            var js := Field(EncodeEvent(x, e).value, "slurs");
            js.Some? && js.value.JArray? && SlursAgree(js.value.elems, xml.children[|e.eventItems|..]))
  {
    EncodeEventSlurs(x, e);
    MnxCommon.WriteEventChildren(e);
    SlursMatchXml(e.slurs);
    if e.slurs == [] {
      assert MnxCommon.WriteSlurs(e.slurs).value == [];
    }
  }

  /** The notes of an event that is not a rest are its notes written in order. */
  lemma EncodeEventNotes(x: Extensions, e: Event)
    requires EncodeEvent(x, e).Ok? && e.id !in x.restEvents
    ensures var notes := Field(EncodeEvent(x, e).value, "notes");
      && notes.Some? && notes.value.JArray?
      && |notes.value.elems| == |e.eventItems|
      && forall i :: 0 <= i < |e.eventItems| ==> notes.value.elems[i] == EncodeNote(e.eventItems[i].note)
  {
    var content := EventContent(x, e).value;
    EventFieldsBody(x, e, EncodeNoteValue(e.duration).value, content, EventSlurs(e).value);
    var notes := MnxCommon.MapOk(e.eventItems, EncodeNoteItem).value;
    assert content == map["notes" := JArray(notes)];
  }

  // ---------------------------------------------------------------------------------------
  // encode_sequence_item, encode_tuplet, encode_octave_shift

  /** `encode_octave_shift`: the end position, the type, and the signed size from the table
      (a KeyError for an unknown shift type). */
  function EncodeOctaveShift(shiftType: int, endPos: string): (r: Result<Json>)
    ensures r.Ok? <==> shiftType in MnxCommon.OCTAVE_SHIFT_TYPES_FOR_EXPORT
    ensures r.Ok? ==> Field(r.value, "type") == Some(JString("octave-shift")) && "content" !in r.value.fields
    ensures r.Ok? ==> Field(r.value, "end") == Some(JString(endPos))
    ensures r.Ok? ==> Field(r.value, "value") == Some(JString(MnxCommon.OCTAVE_SHIFT_TYPES_FOR_EXPORT[shiftType]))
  {
    var value :- MnxCommon.Lookup(MnxCommon.OCTAVE_SHIFT_TYPES_FOR_EXPORT, shiftType);
    Ok(JObject(map["end" := JString(endPos), "type" := JString("octave-shift"), "value" := JString(value)]))
  }

  /** An octave shift exports the size the reader imports it from, negative for a shift
      down: 8va as -8, 15mb as 15. */
  lemma OctaveShiftValues()
    ensures EncodeOctaveShift(TYPE_8VA, "").value.fields["value"] == JString("-8")
    ensures EncodeOctaveShift(TYPE_15MB, "").value.fields["value"] == JString("15")
    ensures forall t :: t in MnxCommon.OCTAVE_SHIFT_TYPES_FOR_EXPORT ==>
      MnxCommon.OCTAVE_SHIFT_TYPES_FOR_EXPORT[t] == MnxCommon.MicroformatOctaveShift(t).value
  {
  }

  /** `encode_sequence_item` for one item: an event, a tuplet with its inner and outer
      numerators as multiples and its items as content (a missing ratio is an
      AttributeError), or an octave shift. */
  function EncodeItem(x: Extensions, item: Item): (r: Result<Json>)
    ensures r.Ok? ==> r.value.JObject?
    ensures r.Ok? ==> (Field(r.value, "type") == Some(JString("event")) <==> item.EventEntry?)
    ensures r.Ok? && item.OctaveShift? ==> "content" !in r.value.fields
    decreases item, 1
  {
    match item
    case EventEntry(e) => EncodeEvent(x, e)
    case Tuplet(items, ratio) =>
      if ratio.None? then Err(InternalError("AttributeError: 'NoneType' object has no attribute 'inner_numerator'"))
      else
        var content :- EncodeItems(x, items);
        Ok(TupletObject(ratio.value, content))
    case OctaveShift(shiftType, endPos) => EncodeOctaveShift(shiftType, endPos)
  }

  /** `encode_tuplet` once its content is written: the multiples with a duration still to
      be worked out, and the content. */
  function TupletObject(t: TupletRatio, content: seq<Json>): (r: Json)
    ensures Field(r, "type").None?
    ensures Field(r, "content") == Some(JArray(content))
    ensures Field(r, "inner").Some? && Field(Field(r, "inner").value, "multiple") == Some(JInt(t.innerNumerator))
    ensures Field(r, "outer").Some? && Field(Field(r, "outer").value, "multiple") == Some(JInt(t.outerNumerator))
  {
    JObject(map[
      "inner" := JObject(map["duration" := JString("TODO"), "multiple" := JInt(t.innerNumerator)]),
      "outer" := JObject(map["duration" := JString("TODO"), "multiple" := JInt(t.outerNumerator)]),
      "content" := JArray(content)])
  }

  /** The items of a sequence or a tuplet, in order; the first failure ends the list. */
  function EncodeItems(x: Extensions, items: seq<Item>): (r: Result<seq<Json>>)
    ensures r.Ok? ==> |r.value| == |items|
    ensures r.Ok? <==> forall i :: 0 <= i < |items| ==> EncodeItem(x, items[i]).Ok?
    ensures r.Ok? ==> forall i :: 0 <= i < |items| ==> EncodeItem(x, items[i]) == Ok(r.value[i])
    decreases items, 0
  {
    if items == [] then Ok([])
    else
      var j :- EncodeItem(x, items[0]);
      var rest :- EncodeItems(x, items[1..]);
      var r := [j] + rest;
      assert forall i :: 0 < i < |items| ==> items[i] == items[1..][i - 1] && r[i] == rest[i - 1];
      Ok(r)
  }

  /** A tuplet's multiples are its ratio's inner and outer numerators, and its content is its
      items written in order. */
  lemma TupletMultiples(x: Extensions, items: seq<Item>, t: TupletRatio)
    requires EncodeItem(x, Tuplet(items, Some(t))).Ok?
    ensures var j := EncodeItem(x, Tuplet(items, Some(t))).value;
      && Field(j, "inner").Some? && Field(Field(j, "inner").value, "multiple") == Some(JInt(t.innerNumerator))
      && Field(j, "outer").Some? && Field(Field(j, "outer").value, "multiple") == Some(JInt(t.outerNumerator))
      && Field(j, "content") == Some(JArray(EncodeItems(x, items).value))
  {
  }

  /** A tuplet without a ratio cannot be written. */
  lemma TupletWithoutRatioFails(x: Extensions, items: seq<Item>)
    ensures EncodeItem(x, Tuplet(items, None)).Err?
  {
  }

  // ---------------------------------------------------------------------------------------
  // Every event is written once, in iteration order

  /** The event objects of a list of JSON values, in document order, looking into `content`
      (events are not searched inside). */
  function JsonEvents(js: seq<Json>): seq<Json>
    decreases js, 0
  {
    if js == [] then [] else JsonEventsOf(js[0]) + JsonEvents(js[1..])
  }

  function JsonEventsOf(j: Json): seq<Json>
    decreases j, 1
  {
    if Field(j, "type") == Some(JString("event")) then [j]
    else if j.JObject? && "content" in j.fields && j.fields["content"].JArray? then JsonEvents(j.fields["content"].elems)
    else []
  }

  /** The written forms of a list of events. */
  function EncodedEvents(x: Extensions, events: seq<Event>): Result<seq<Json>> {
    MnxCommon.MapOk(events, e => EncodeEvent(x, e))
  }

  lemma {:induction false} JsonEventsAppend(a: seq<Json>, b: seq<Json>)
    ensures JsonEvents(a + b) == JsonEvents(a) + JsonEvents(b)
  {
    if a == [] {
      assert a + b == b;
    } else {
      assert (a + b)[0] == a[0];
      assert (a + b)[1..] == a[1..] + b;
      JsonEventsAppend(a[1..], b);
    }
  }

  /** Encoding a sequence's items writes each of its events exactly once, in the order
      `iter_events` visits them, and writes nothing else as an event. */
  lemma {:induction false} ItemsEncodeEachEvent(x: Extensions, items: seq<Item>)
    requires EncodeItems(x, items).Ok?
    ensures EncodedEvents(x, IterEvents(items)) == Ok(JsonEvents(EncodeItems(x, items).value))
    decreases items, 0
  {
    if items != [] {
      var j := EncodeItem(x, items[0]).value;
      var rest := EncodeItems(x, items[1..]).value;
      ItemEncodesItsEvents(x, items[0]);
      ItemsEncodeEachEvent(x, items[1..]);
      assert EncodeItems(x, items).value == [j] + rest;
      JsonEventsAppend([j], rest);
      assert JsonEvents([j]) == JsonEventsOf(j);
      MnxCommon.MapOkAppend(ItemEvents(items[0]), IterEvents(items[1..]), e => EncodeEvent(x, e));
    }
  }

  lemma {:induction false} ItemEncodesItsEvents(x: Extensions, item: Item)
    requires EncodeItem(x, item).Ok?
    ensures EncodedEvents(x, ItemEvents(item)) == Ok(JsonEventsOf(EncodeItem(x, item).value))
    decreases item, 1
  {
    match item
    case EventEntry(e) =>
      assert MnxCommon.MapOk([e], e => EncodeEvent(x, e)).value == [EncodeEvent(x, e).value];
    case Tuplet(inner, _) =>
      ItemsEncodeEachEvent(x, inner);
    case OctaveShift(_, _) =>
  }

  // ---------------------------------------------------------------------------------------
  // encode_positioned_clef, encode_part_measure, encode_sequence

  /** `encode_positioned_clef`: the clef's position and sign, and the position within the
      measure as `[numerator, denominator]` in lowest terms unless it is zero. */
  function EncodePositionedClef(pc: PositionedClef): (r: Json)
    ensures Field(r, "position").Some? <==> pc.position.num != 0
  {
    var v := Reduce(pc.position.num, pc.position.den);
    JObject(map["clef" := JObject(map[
                  "position" := (if pc.clefPosition.Some? then JInt(pc.clefPosition.value) else JNull),
                  "sign" := (if pc.sign.Some? then JString(pc.sign.value) else JNull)])]
            + (if v.num != 0 then map["position" := JObject(map["fraction" := JArray([JInt(v.num), JInt(v.den)])])]
               else map[]))
  }

  /** A written clef position has the value of the clef's position. */
  lemma ClefPositionValue(pc: PositionedClef)
    requires pc.position.num != 0
    ensures var f := Field(Field(EncodePositionedClef(pc), "position").value, "fraction");
      && f.Some? && f.value.JArray? && |f.value.elems| == 2
      && f.value.elems[0].JInt? && f.value.elems[1].JInt?
      && SameValue(Rational(f.value.elems[0].i, f.value.elems[1].i), pc.position)
      && Canonical(Rational(f.value.elems[0].i, f.value.elems[1].i))
  {
  }

  /** `encode_sequence`: the items as `content`. */
  function EncodeSequence(x: Extensions, sq: Sequence): Result<Json> {
    var content :- EncodeItems(x, sq.items);
    Ok(JObject(map["content" := JArray(content)]))
  }

  /** `bar_part.clefs`: the positioned clefs of a bar part. */
  function ClefsOf(x: Extensions, bp: BarPart): seq<PositionedClef> {
    x.clefs(bp)
  }

  /** The sequences of a bar part, each encoded, in order. */
  function EncodeSequences(x: Extensions, sqs: seq<Sequence>): (r: Result<seq<Json>>)
    ensures r.Ok? <==> forall i :: 0 <= i < |sqs| ==> EncodeSequence(x, sqs[i]).Ok?
    ensures r.Ok? ==> |r.value| == |sqs| && forall i :: 0 <= i < |sqs| ==> EncodeSequence(x, sqs[i]) == Ok(r.value[i])
  {
    if sqs == [] then Ok([])
    else
      var j :- EncodeSequence(x, sqs[0]);
      var rest :- EncodeSequences(x, sqs[1..]);
      assert forall i :: 0 < i < |sqs| ==> sqs[i] == sqs[1..][i - 1];
      Ok([j] + rest)
  }

  /** The positioned clefs, each encoded, in order. */
  function EncodeClefs(clefs: seq<PositionedClef>): (r: seq<Json>)
    ensures |r| == |clefs| && forall i :: 0 <= i < |clefs| ==> r[i] == EncodePositionedClef(clefs[i])
  {
    if clefs == [] then [] else [EncodePositionedClef(clefs[0])] + EncodeClefs(clefs[1..])
  }

  /** `encode_part_measure`: one entry per sequence, and `clefs` when the bar part has any. */
  function EncodePartMeasure(x: Extensions, bp: BarPart): (r: Result<Json>)
  {
    var sequences :- EncodeSequences(x, bp.sequences);
    var clefs := ClefsOf(x, bp);
    Ok(JObject(map["sequences" := JArray(sequences)]
               + (if clefs != [] then map["clefs" := JArray(EncodeClefs(clefs))] else map[])))
  }

  /** A bar part is encoded exactly when all its sequences are; the entry holds them in
      order as `sequences`, and `clefs` exactly when the bar part has positioned clefs. */
  lemma PartMeasureFields(x: Extensions, bp: BarPart)
    ensures var r := EncodePartMeasure(x, bp);
      && (r.Ok? <==> forall i :: 0 <= i < |bp.sequences| ==> EncodeSequence(x, bp.sequences[i]).Ok?)
      && (r.Ok? ==> (Field(r.value, "clefs").Some? <==> ClefsOf(x, bp) != []))
      && (r.Ok? ==> Field(r.value, "sequences").Some? && Field(r.value, "sequences").value.JArray?)
      && (r.Ok? ==> |Field(r.value, "sequences").value.elems| == |bp.sequences|)
      && (r.Ok? ==> forall i :: 0 <= i < |bp.sequences| ==>
            EncodeSequence(x, bp.sequences[i]) == Ok(Field(r.value, "sequences").value.elems[i]))
  {
  }

  // ---------------------------------------------------------------------------------------
  // encode_measure_global, encode_global

  /** `encode_measure_global`: the time signature when set and changed, the key when not
      zero and changed, the repeat start, the repeat end (with `times` only above 2), and
      the numbers of the ending that starts here. The number of fifths is the key the
      reader stores. */
  function EncodeMeasureGlobal(bars: seq<Bar>, idx: nat): Json
    requires idx < |bars|
  {
    var bar := bars[idx];
    JObject(GlobalFields(bar, WrittenTime(bars, idx), WrittenKey(bars, idx)))
  }

  /** The time signature a global measure writes: the bar's own when set and changed. */
  function WrittenTime(bars: seq<Bar>, idx: nat): Option<TimeSig>
    requires idx < |bars|
  {
    if bars[idx].timesig.Some? && TimesigChanged(bars, idx) then bars[idx].timesig else None
  }

  /** The key a global measure writes: the bar's own when set, not zero and changed. */
  function WrittenKey(bars: seq<Bar>, idx: nat): Option<int>
    requires idx < |bars|
  {
    if bars[idx].keysig.Some? && bars[idx].keysig.value != 0 && KeysigChanged(bars, idx) then bars[idx].keysig else None
  }

  /** The entries of a global measure, given the time signature and the key it writes. */
  function GlobalFields(bar: Bar, time: Option<TimeSig>, key: Option<int>): map<string, Json> {
    (if time.Some? then map["time" := TimeObject(time.value)] else map[])
    + (if key.Some? then map["key" := JObject(map["fifths" := JInt(key.value)])] else map[])
    + (if bar.startRepeat then map["repeat-start" := JObject(map[])] else map[])
    + (if bar.endRepeat != 0 then map["repeat-end" := RepeatEndObject(bar.endRepeat)] else map[])
    + (if bar.startEnding.Some? then map["ending" := EndingObject(bar.startEnding.value)] else map[])
  }

  function TimeObject(t: TimeSig): Json {
    JObject(map["count" := JInt(t.count), "unit" := JInt(t.unit)])
  }

  /** The end of a repeat, with `times` only above 2. */
  function RepeatEndObject(times: int): (r: Json)
    ensures Field(r, "times") == if times > 2 then Some(JInt(times)) else None
  {
    JObject(if times > 2 then map["times" := JInt(times)] else map[])
  }

  /** An ending's numbers; a missing list is written as null. */
  function EndingObject(ending: Ending): Json {
    JObject(map["numbers" :=
      (match ending.numbers
       case None => JNull
       case Some(ns) => JArray(seq(|ns|, i requires 0 <= i < |ns| => JInt(ns[i]))))])
  }

  lemma GlobalFieldsStart(bar: Bar, time: Option<TimeSig>, key: Option<int>)
    ensures var f := GlobalFields(bar, time, key);
      && ("time" in f <==> time.Some?)
      && ("key" in f <==> key.Some?)
      && ("repeat-start" in f <==> bar.startRepeat)
      && (time.Some? ==> f["time"] == TimeObject(time.value))
      && (key.Some? ==> f["key"] == JObject(map["fifths" := JInt(key.value)]))
  {
  }

  lemma GlobalFieldsEnd(bar: Bar, time: Option<TimeSig>, key: Option<int>)
    ensures var f := GlobalFields(bar, time, key);
      && ("repeat-end" in f <==> bar.endRepeat != 0)
      && ("ending" in f <==> bar.startEnding.Some?)
      && (bar.endRepeat != 0 ==> f["repeat-end"] == RepeatEndObject(bar.endRepeat))
      && (bar.startEnding.Some? ==> f["ending"] == EndingObject(bar.startEnding.value))
  {
  }

  lemma GlobalFieldsKeys(bar: Bar, time: Option<TimeSig>, key: Option<int>)
    ensures GlobalFields(bar, time, key).Keys <= {"time", "key", "repeat-start", "repeat-end", "ending"}
  {
  }

  /** The global measure of a bar holds exactly the directions the XML header writes for it,
      except the end of an ending, which the JSON form never writes. */
  lemma MeasureGlobalMatchesHeader(bars: seq<Bar>, idx: nat)
    requires idx < |bars|
    ensures var j := EncodeMeasureGlobal(bars, idx);
      && (Field(j, "time").Some? <==> MnxCommon.Wanted(bars, idx, MnxCommon.TimeChange))
      && (Field(j, "key").Some? <==> MnxCommon.Wanted(bars, idx, MnxCommon.KeyChange))
      && (Field(j, "repeat-start").Some? <==> MnxCommon.Wanted(bars, idx, MnxCommon.RepeatStart))
      && (Field(j, "ending").Some? <==> MnxCommon.Wanted(bars, idx, MnxCommon.EndingStart))
      && (Field(j, "repeat-end").Some? <==> MnxCommon.Wanted(bars, idx, MnxCommon.RepeatEnd))
      && j.fields.Keys <= {"time", "key", "repeat-start", "repeat-end", "ending"}
  {
    GlobalFieldsStart(bars[idx], WrittenTime(bars, idx), WrittenKey(bars, idx));
    GlobalFieldsEnd(bars[idx], WrittenTime(bars, idx), WrittenKey(bars, idx));
    GlobalFieldsKeys(bars[idx], WrittenTime(bars, idx), WrittenKey(bars, idx));
  }

  /** The time signature, the key and the repeat count are written as the bar holds them,
      `times` only when the repeat count is above 2. */
  lemma MeasureGlobalValues(bars: seq<Bar>, idx: nat)
    requires idx < |bars|
    ensures var j, bar := EncodeMeasureGlobal(bars, idx), bars[idx];
      && (Field(j, "time").Some? ==>
            Field(Field(j, "time").value, "count") == Some(JInt(bar.timesig.value.count))
            && Field(Field(j, "time").value, "unit") == Some(JInt(bar.timesig.value.unit)))
      && (Field(j, "key").Some? ==> Field(Field(j, "key").value, "fifths") == Some(JInt(bar.keysig.value)))
      && (Field(j, "repeat-end").Some? ==>
            Field(Field(j, "repeat-end").value, "times") == (if bar.endRepeat > 2 then Some(JInt(bar.endRepeat)) else None))
  {
    GlobalFieldsStart(bars[idx], WrittenTime(bars, idx), WrittenKey(bars, idx));
    GlobalFieldsEnd(bars[idx], WrittenTime(bars, idx), WrittenKey(bars, idx));
  }

  /** An ending carries its numbers, in order. */
  lemma MeasureGlobalEnding(bars: seq<Bar>, idx: nat)
    requires idx < |bars| && bars[idx].startEnding.Some? && bars[idx].startEnding.value.numbers.Some?
    ensures var ns, e := bars[idx].startEnding.value.numbers.value, Field(EncodeMeasureGlobal(bars, idx), "ending");
      && e.Some?
      && Field(e.value, "numbers") == Some(JArray(seq(|ns|, i requires 0 <= i < |ns| => JInt(ns[i]))))
  {
    GlobalFieldsEnd(bars[idx], WrittenTime(bars, idx), WrittenKey(bars, idx));
  }

  /** `encode_global`: one global measure per bar. */
  function EncodeGlobal(bars: seq<Bar>): (r: Json)
    ensures Field(r, "measures").Some? && Field(r, "measures").value.JArray?
    ensures |Field(r, "measures").value.elems| == |bars|
    ensures forall i :: 0 <= i < |bars| ==> Field(r, "measures").value.elems[i] == EncodeMeasureGlobal(bars, i)
  {
    JObject(map["measures" := JArray(seq(|bars|, i requires 0 <= i < |bars| => EncodeMeasureGlobal(bars, i)))])
  }

  // ---------------------------------------------------------------------------------------
  // encode_part, get_filedata

  /** The bar holds a bar part for `partId`, and it can be encoded. */
  predicate BarEncodable(x: Extensions, bar: Bar, partId: string) {
    LookupBarPart(bar.barParts, partId).Some? && EncodePartMeasure(x, LookupBarPart(bar.barParts, partId).value).Ok?
  }

  /** `m` is the bar part for `partId` of the bar, encoded. */
  predicate BarEncodes(x: Extensions, bar: Bar, partId: string, m: Json) {
    LookupBarPart(bar.barParts, partId).Some? && EncodePartMeasure(x, LookupBarPart(bar.barParts, partId).value) == Ok(m)
  }

  /** The measures of a part, one per bar; a bar without that part is a KeyError. */
  function EncodePartMeasures(x: Extensions, bars: seq<Bar>, partId: string): (r: Result<seq<Json>>)
    ensures r.Ok? <==> forall i :: 0 <= i < |bars| ==> BarEncodable(x, bars[i], partId)
    ensures r.Ok? ==> |r.value| == |bars|
    ensures r.Ok? ==> forall i :: 0 <= i < |bars| ==> BarEncodes(x, bars[i], partId, r.value[i])
  {
    if bars == [] then Ok([])
    else
      var bp :- match LookupBarPart(bars[0].barParts, partId)
                case None => Err(InternalError("KeyError: '" + partId + "'"))
                case Some(bp) => Ok(bp);
      var m :- EncodePartMeasure(x, bp);
      var rest :- EncodePartMeasures(x, bars[1..], partId);
      assert forall j :: 0 < j < |bars| ==> bars[j] == bars[1..][j - 1];
      Ok([m] + rest)
  }

  /** `encode_part`: the name when the part has one, then one measure per bar. */
  function EncodePart(x: Extensions, bars: seq<Bar>, part: Part): (r: Result<Json>)
    ensures r.Ok? <==> EncodePartMeasures(x, bars, part.partId).Ok?
    ensures r.Ok? ==> Field(r.value, "name") == (if part.name.Some? then Some(JString(part.name.value)) else None)
    ensures r.Ok? ==> Field(r.value, "measures").Some? && Field(r.value, "measures").value.JArray?
    ensures r.Ok? ==> |Field(r.value, "measures").value.elems| == |bars|
  {
    var measures :- EncodePartMeasures(x, bars, part.partId);
    Ok(JObject((if part.name.Some? then map["name" := JString(part.name.value)] else map[])
               + map["measures" := JArray(measures)]))
  }

  /** `get_filedata` up to serialisation: the version, the global measures and the parts. */
  function EncodeScore(x: Extensions, score: Score): Result<Json> {
    var parts :- MnxCommon.MapOk(score.parts, p => EncodePart(x, score.bars, p));
    Ok(ScoreObject(EncodeGlobal(score.bars), parts))
  }

  function ScoreObject(global: Json, parts: seq<Json>): (r: Json)
    ensures Field(r, "mnx") == Some(JObject(map["version" := JInt(1)]))
    ensures Field(r, "global") == Some(global)
    ensures Field(r, "parts") == Some(JArray(parts))
  {
    JObject(map["mnx" := JObject(map["version" := JInt(1)]), "global" := global, "parts" := JArray(parts)])
  }

  /** A written score is version 1, has one global measure per bar and one entry per part,
      each with one measure per bar. */
  lemma ScoreShape(x: Extensions, score: Score)
    requires EncodeScore(x, score).Ok?
    ensures var j := EncodeScore(x, score).value;
      && Field(j, "mnx") == Some(JObject(map["version" := JInt(1)]))
      && Field(j, "global") == Some(EncodeGlobal(score.bars))
      && Field(j, "parts").Some? && Field(j, "parts").value.JArray?
      && |Field(j, "parts").value.elems| == |score.parts|
      && forall p :: 0 <= p < |score.parts| ==>
           && EncodePart(x, score.bars, score.parts[p]) == Ok(Field(j, "parts").value.elems[p])
           && |Field(Field(j, "parts").value.elems[p], "measures").value.elems| == |score.bars|
  {
    var parts := MnxCommon.MapOk(score.parts, p => EncodePart(x, score.bars, p)).value;
    assert EncodeScore(x, score).value == ScoreObject(EncodeGlobal(score.bars), parts);
  }

  /** Measure `i` of an encoded part is bar `i`'s bar part for the part, encoded. */
  lemma PartHoldsMeasuresJson(x: Extensions, bars: seq<Bar>, part: Part)
    requires EncodePart(x, bars, part).Ok?
    ensures var ms := Field(EncodePart(x, bars, part).value, "measures").value.elems;
      forall i :: 0 <= i < |bars| ==> BarEncodes(x, bars[i], part.partId, ms[i])
  {
    assert Field(EncodePart(x, bars, part).value, "measures").value.elems == EncodePartMeasures(x, bars, part.partId).value;
  }

  /** Measure `i` of part `p` in an encoded score is the bar part of part `p` in bar `i`,
      encoded. */
  lemma ScoreMeasure(x: Extensions, score: Score, p: nat, i: nat)
    requires EncodeScore(x, score).Ok? && p < |score.parts| && i < |score.bars|
    ensures var part := Field(EncodeScore(x, score).value, "parts").value.elems[p];
      var bp := LookupBarPart(score.bars[i].barParts, score.parts[p].partId);
      && bp.Some?
      && EncodePartMeasure(x, bp.value) == Ok(Field(part, "measures").value.elems[i])
  {
    ScoreShape(x, score);
    PartHoldsMeasuresJson(x, score.bars, score.parts[p]);
  }

  /** A part missing from any bar makes writing the score fail. */
  lemma MissingPartFailsJson(x: Extensions, score: Score, p: nat, j: nat)
    requires p < |score.parts| && j < |score.bars|
    requires LookupBarPart(score.bars[j].barParts, score.parts[p].partId).None?
    ensures EncodeScore(x, score).Err?
  {
    assert !BarEncodable(x, score.bars[j], score.parts[p].partId);
    assert EncodePartMeasures(x, score.bars, score.parts[p].partId).Err?;
    assert EncodePart(x, score.bars, score.parts[p]).Err?;
  }

  // ---------------------------------------------------------------------------------------
  // Every event of a part is written once, bar by bar

  /** The event objects of an encoded part measure, sequence by sequence. */
  function MeasureJsonEvents(m: Json): seq<Json> {
    match Field(m, "sequences")
    case Some(JArray(sqs)) => JsonEvents(sqs)
    case _ => []
  }

  /** The event objects of a list of encoded part measures, measure by measure. */
  function MeasuresJsonEvents(ms: seq<Json>): seq<Json> {
    if ms == [] then [] else MeasureJsonEvents(ms[0]) + MeasuresJsonEvents(ms[1..])
  }

  lemma SequenceHoldsContent(x: Extensions, sq: Sequence)
    requires EncodeSequence(x, sq).Ok?
    ensures JsonEventsOf(EncodeSequence(x, sq).value) == JsonEvents(EncodeItems(x, sq.items).value)
  {
    var content := EncodeItems(x, sq.items).value;
    assert EncodeSequence(x, sq).value == JObject(map["content" := JArray(content)]);
  }

  lemma MeasureHoldsSequences(x: Extensions, bp: BarPart)
    requires EncodePartMeasure(x, bp).Ok?
    ensures Field(EncodePartMeasure(x, bp).value, "sequences") == Some(JArray(EncodeSequences(x, bp.sequences).value))
  {
    var seqs := JArray(EncodeSequences(x, bp.sequences).value);
    var clefs := ClefsOf(x, bp);
    var extra: map<string, Json> := if clefs != [] then map["clefs" := JArray(EncodeClefs(clefs))] else map[];
    assert EncodePartMeasure(x, bp).value == JObject(map["sequences" := seqs] + extra);
    assert "sequences" !in extra;
  }

  lemma {:induction false} SequencesEncodeEachEvent(x: Extensions, sqs: seq<Sequence>)
    requires EncodeSequences(x, sqs).Ok?
    ensures EncodedEvents(x, MnxCommon.SequencesEvents(sqs)) == Ok(JsonEvents(EncodeSequences(x, sqs).value))
  {
    if sqs != [] {
      var j := EncodeSequence(x, sqs[0]).value;
      var rest := EncodeSequences(x, sqs[1..]).value;
      ItemsEncodeEachEvent(x, sqs[0].items);
      SequenceHoldsContent(x, sqs[0]);
      SequencesEncodeEachEvent(x, sqs[1..]);
      assert EncodeSequences(x, sqs).value == [j] + rest;
      JsonEventsAppend([j], rest);
      assert JsonEvents([j]) == JsonEventsOf(j) + JsonEvents([]);
      MnxCommon.MapOkAppend(IterEvents(sqs[0].items), MnxCommon.SequencesEvents(sqs[1..]), e => EncodeEvent(x, e));
    }
  }

  /** An encoded part measure holds the events of its sequences, each once, in order; its
      clefs hold none. */
  lemma PartMeasureEncodesEachEvent(x: Extensions, bp: BarPart)
    requires EncodePartMeasure(x, bp).Ok?
    ensures EncodedEvents(x, MnxCommon.SequencesEvents(bp.sequences)) == Ok(MeasureJsonEvents(EncodePartMeasure(x, bp).value))
  {
    MeasureHoldsSequences(x, bp);
    SequencesEncodeEachEvent(x, bp.sequences);
  }

  lemma {:induction false} MeasuresEncodeEachEvent(x: Extensions, bars: seq<Bar>, partId: string)
    requires EncodePartMeasures(x, bars, partId).Ok?
    ensures EncodedEvents(x, MnxCommon.PartEvents(bars, partId)) == Ok(MeasuresJsonEvents(EncodePartMeasures(x, bars, partId).value))
  {
    if bars != [] {
      var bp := LookupBarPart(bars[0].barParts, partId).value;
      var m := EncodePartMeasure(x, bp).value;
      var rest := EncodePartMeasures(x, bars[1..], partId).value;
      assert EncodePartMeasures(x, bars, partId).value == [m] + rest;
      PartMeasureEncodesEachEvent(x, bp);
      MeasuresEncodeEachEvent(x, bars[1..], partId);
      assert ([m] + rest)[0] == m && ([m] + rest)[1..] == rest;
      MnxCommon.MapOkAppend(MnxCommon.SequencesEvents(bp.sequences), MnxCommon.PartEvents(bars[1..], partId), e => EncodeEvent(x, e));
    }
  }

  lemma ScorePart(x: Extensions, score: Score, p: nat)
    requires EncodeScore(x, score).Ok? && p < |score.parts|
    ensures Field(EncodeScore(x, score).value, "parts").Some?
    ensures Field(EncodeScore(x, score).value, "parts").value.JArray?
    ensures p < |Field(EncodeScore(x, score).value, "parts").value.elems|
    ensures EncodePart(x, score.bars, score.parts[p]) == Ok(Field(EncodeScore(x, score).value, "parts").value.elems[p])
  {
    var parts := MnxCommon.MapOk(score.parts, p => EncodePart(x, score.bars, p)).value;
    assert EncodeScore(x, score).value == ScoreObject(EncodeGlobal(score.bars), parts);
  }

  lemma PartHoldsMeasureList(x: Extensions, bars: seq<Bar>, part: Part)
    requires EncodePart(x, bars, part).Ok?
    ensures Field(EncodePart(x, bars, part).value, "measures") == Some(JArray(EncodePartMeasures(x, bars, part.partId).value))
  {
  }

  /** In an encoded score, part `p` holds the events of that part, bar by bar, each once, in
      the order the writer walks them. */
  lemma ScorePartEvents(x: Extensions, score: Score, p: nat)
    requires EncodeScore(x, score).Ok? && p < |score.parts|
    ensures var part := Field(EncodeScore(x, score).value, "parts").value.elems[p];
      EncodedEvents(x, MnxCommon.PartEvents(score.bars, score.parts[p].partId))
      == Ok(MeasuresJsonEvents(Field(part, "measures").value.elems))
  {
    ScorePart(x, score, p);
    PartHoldsMeasureList(x, score.bars, score.parts[p]);
    MeasuresEncodeEachEvent(x, score.bars, score.parts[p].partId);
  }
}
