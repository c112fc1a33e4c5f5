/** The bookkeeping the MusicXML reader keeps while it walks the notes of a measure part
    (mnxconverter/musicxml.py): open ties, beam ids, open and complete slurs, open and
    complete tuplets, the open octave shift. This module holds the records it keeps, the
    functions that specify its transitions, and the facts proved about them; the reader
    class itself is in `MusicXmlReading`. */
module MusicXmlMarkers {
  import opened Wrappers
  import opened Text
  import opened MusicXmlTree
  import opened MusicXmlFields
  import opened ScoreModel
  import opened Fractions

  /** The Note object made for the `serial`-th `<note>` element, whose id is `note{number}`. */
  datatype NoteRef = NoteRef(serial: nat, number: nat)

  /** An entry of `open_ties`: the start note and its pitch (None while it has none). */
  datatype OpenTie = OpenTie(note: NoteRef, pitch: Option<Pitch>)

  /** An entry of `open_slurs`: the Slur (only its side is set yet), the start element's
      attributes and the start note. */
  datatype OpenSlur = OpenSlur(side: Option<int>, startAttrs: map<string, string>, startNote: NoteRef)

  /** An entry of `complete_slurs`: an open slur with its stop attributes and end note. */
  datatype CompleteSlur = CompleteSlur(side: Option<int>, startAttrs: map<string, string>,
                                       endAttrs: map<string, string>, startNote: NoteRef, endNote: NoteRef)

  /** A value of `current_beams`: the sequence (by id) and the events (by id) of one beam. */
  datatype BeamGroup = BeamGroup(sequenceId: string, eventIds: seq<nat>)

  /** An entry of `current_tuplets`: the sequence, the events and the ratio of a closed
      tuplet waiting to be folded. */
  datatype PendingTuplet = PendingTuplet(sequenceId: string, eventIds: seq<nat>, ratio: Option<TupletRatio>)

  /** `current_octave_shift` and the entries of `complete_octave_shifts`: the shift type and
      the event items met while it was open. */
  datatype OpenShift = OpenShift(shiftType: int, members: seq<ItemKey>)

  // ---------------------------------------------------------------------------------------
  // The shape of a <note> element: what the reader's loop over its children leaves behind.
  // Each is defined on prefixes so that a loop invariant can follow it child by child.

  function CountTag(cs: seq<Element>, tag: string): nat {
    if cs == [] then 0 else CountTag(cs[..|cs| - 1], tag) + (if cs[|cs| - 1].tag == tag then 1 else 0)
  }

  predicate HasTag(cs: seq<Element>, tag: string) {
    CountTag(cs, tag) > 0
  }

  /** The last child with that tag: the one whose assignment a loop keeps. */
  function LastWithTag(cs: seq<Element>, tag: string): (r: Option<Element>)
    ensures r.Some? ==> r.value.tag == tag && r.value in cs
    ensures r.None? <==> !HasTag(cs, tag)
  {
    if cs == [] then None
    else if cs[|cs| - 1].tag == tag then Some(cs[|cs| - 1])
    else LastWithTag(cs[..|cs| - 1], tag)
  }

  /** `sequence_id = el.text or ''` for the last `<voice>`; '' without one. */
  function VoiceOf(cs: seq<Element>): string {
    match LastWithTag(cs, "voice")
    case None => ""
    case Some(v) => v.text.GetOr("")
  }

  /** `note_type` after the loop: the fraction of the last `<type>`. */
  function NoteTypeOf(cs: seq<Element>): Option<Frac> {
    match LastWithTag(cs, "type")
    case None => None
    case Some(t) => if ParseType(t).Ok? then Some(ParseType(t).value) else None
  }

  /** `RhythmicDuration(note_type, num_dots)` of a `<note>` element. */
  function NoteDuration(cs: seq<Element>): RhythmicDuration {
    RhythmicDuration(NoteTypeOf(cs), CountTag(cs, "dot"))
  }

  /** `tuplet_el.attrib.get('number', '1')`. */
  function TupletNumber(el: Element): string {
    Attr(el, "number").GetOr("1")
  }

  /** The numbers `parse_notations` returns: those of the `<tuplet type="stop">` children,
      in order, an empty number left out. */
  function TupletStops(cs: seq<Element>): seq<string> {
    if cs == [] then []
    else
      var c := cs[|cs| - 1];
      TupletStops(cs[..|cs| - 1])
        + (if c.tag == "tuplet" && Attr(c, "type") == Some("stop") && TupletNumber(c) != "" then [TupletNumber(c)] else [])
  }

  /** `closed_tuplet_numbers` of `parse_note`: the stops of all its `<notations>`. */
  function ClosedNumbers(cs: seq<Element>): seq<string> {
    if cs == [] then []
    else
      var c := cs[|cs| - 1];
      ClosedNumbers(cs[..|cs| - 1]) + (if c.tag == "notations" then TupletStops(c.children) else [])
  }

  /** A `<tied type="stop">` among the children. */
  predicate HasTiedStop(cs: seq<Element>) {
    exists j :: 0 <= j < |cs| && cs[j].tag == "tied" && Attr(cs[j], "type") == Some("stop")
  }

  /** One more child of a prefix extends every prefix definition by that child. */
  lemma PrefixStep(cs: seq<Element>, i: nat)
    requires i < |cs|
    ensures cs[..i + 1][..i] == cs[..i] && cs[..i + 1][i] == cs[i]
  {
  }

  /** One more child: the tag count and the last child with the tag, step by step. */
  lemma TagStep(cs: seq<Element>, i: nat, tag: string)
    requires i < |cs|
    ensures CountTag(cs[..i + 1], tag) == CountTag(cs[..i], tag) + (if cs[i].tag == tag then 1 else 0)
    ensures LastWithTag(cs[..i + 1], tag) == if cs[i].tag == tag then Some(cs[i]) else LastWithTag(cs[..i], tag)
  {
    PrefixStep(cs, i);
  }

  // ---------------------------------------------------------------------------------------
  // parse_beam

  /** `<beam>` with the given text on the primary beam level. */
  predicate IsBeam(el: Element, kind: string) {
    Attr(el, "number").GetOr("1") == "1" && el.text == Some(kind)
  }

  /** `parse_beam`: the id it returns (None where Python returns None) and the new counter.
      Only a primary beam (`number="1"`) with text counts. */
  function BeamStep(counter: int, el: Element): (r: (Option<int>, int))
    ensures IsBeam(el, "begin") ==> r == (Some(counter + 1), counter + 1)
    ensures IsBeam(el, "continue") ==> r == (Some(counter), counter)
    ensures IsBeam(el, "end") ==> r == (Some(counter), counter + 1)
    ensures !IsBeam(el, "begin") && !IsBeam(el, "continue") && !IsBeam(el, "end") ==> r == (None, counter)
  {
    if Attr(el, "number").GetOr("1") == "1" && el.text.Some? && el.text.value != "" then
      var kind := el.text.value;
      if kind == "begin" then (Some(counter + 1), counter + 1)
      else if kind == "continue" then (Some(counter), counter)
      else if kind == "end" then (Some(counter), counter + 1)
      else (None, counter)
    else (None, counter)
  }

  /** The ids `parse_beam` returns for a run of `<beam>` elements, and the final counter. */
  function BeamRun(counter: int, els: seq<Element>): (r: (seq<Option<int>>, int))
    ensures |r.0| == |els|
    decreases |els|
  {
    if els == [] then ([], counter)
    else
      var first := BeamStep(counter, els[0]);
      var rest := BeamRun(first.1, els[1..]);
      ([first.0] + rest.0, rest.1)
  }

  lemma {:induction false} ContinuesKeepId(counter: int, els: seq<Element>)
    requires forall k :: 0 <= k < |els| ==> IsBeam(els[k], "continue")
    ensures BeamRun(counter, els).1 == counter
    ensures forall k :: 0 <= k < |els| ==> BeamRun(counter, els).0[k] == Some(counter)
  {
    if els != [] {
      ContinuesKeepId(counter, els[1..]);
    }
  }

  /** A beam `begin`, any number of `continue`s and an `end` all get the same id, one more
      than the counter before; the next `begin` gets a strictly larger id. */
  lemma BeamGroupSharesId(counter: int, begin: Element, continues: seq<Element>, end: Element, next: Element)
    requires IsBeam(begin, "begin") && IsBeam(end, "end") && IsBeam(next, "begin")
    requires forall k :: 0 <= k < |continues| ==> IsBeam(continues[k], "continue")
    ensures var run := BeamRun(counter, [begin] + continues + [end] + [next]);
      && (forall k :: 0 <= k <= |continues| + 1 ==> run.0[k] == Some(counter + 1))
      && run.0[|continues| + 2].Some? && run.0[|continues| + 2].value > counter + 1
  {
    var els := [begin] + continues + [end] + [next];
    assert els[1..] == continues + [end, next];
    BeamRunAppend(counter + 1, continues, [end, next]);
    ContinuesKeepId(counter + 1, continues);
    var tail := BeamRun(counter + 1, [end, next]);
    assert [end, next][1..] == [next];
    assert [next][1..] == [];
    assert tail.0 == [Some(counter + 1), Some(counter + 3)];
  }

  lemma {:induction false} BeamRunAppend(counter: int, a: seq<Element>, b: seq<Element>)
    ensures BeamRun(counter, a + b).0 == BeamRun(counter, a).0 + BeamRun(BeamRun(counter, a).1, b).0
    ensures BeamRun(counter, a + b).1 == BeamRun(BeamRun(counter, a).1, b).1
    decreases |a|
  {
    if a == [] {
      assert a + b == b;
    } else {
      assert (a + b)[0] == a[0] && (a + b)[1..] == a[1..] + b;
      BeamRunAppend(BeamStep(counter, a[0]).1, a[1..], b);
    }
  }

  // ---------------------------------------------------------------------------------------
  // parse_slur

  /** `int(slur_el.get('number', 1))`, 1 where `int` raises. */
  function SlurNumber(el: Element): int {
    match Attr(el, "number")
    case None => 1
    case Some(s) => ParseInt(s).GetOr(1)
  }

  /** `SLUR_SIDES_FOR_IMPORT[placement or '']`, None for any other placement. */
  function SlurSide(el: Element): (r: Option<int>)
    ensures r.Some? <==> Attr(el, "placement").GetOr("") in SLUR_SIDES_FOR_IMPORT
  {
    var p := Attr(el, "placement").GetOr("");
    if p in SLUR_SIDES_FOR_IMPORT then Some(SLUR_SIDES_FOR_IMPORT[p]) else None
  }

  /** Two slur start elements with the same number (given or defaulted) claim the same
      open-slur slot; an unparsable number shares slot 1 with an absent one. */
  lemma SlurNumberDefaults(el: Element)
    ensures Attr(el, "number").None? ==> SlurNumber(el) == 1
    ensures Attr(el, "number").Some? && ParseInt(Attr(el, "number").value).None? ==> SlurNumber(el) == 1
    ensures forall n: nat :: Attr(el, "number") == Some(NatToString(n)) ==> SlurNumber(el) == n
  {
    forall n: nat | Attr(el, "number") == Some(NatToString(n))
      ensures SlurNumber(el) == n
    {
      ParseIntOfIntToString(n);
    }
  }

  // ---------------------------------------------------------------------------------------
  // get_open_tie_by_end_note

  /** An entry the search passes over: the end note itself, or a note of another pitch. */
  predicate Skipped(t: OpenTie, serial: nat, pitch: Pitch) {
    t.note.serial == serial || (t.pitch.Some? && t.pitch.value != pitch)
  }

  /** The index `get_open_tie_by_end_note` takes from `open_ties` for the note of element
      `serial` with `pitch`: the first entry that is another note of an equal pitch.
      Comparing against an entry without a pitch raises (`Pitch.__eq__` reads `.step` of
      None). */
  function TieMatch(ties: seq<OpenTie>, serial: nat, pitch: Pitch): (r: Result<Option<nat>>)
    ensures r.Ok? && r.value.Some? ==>
      && r.value.value < |ties|
      && ties[r.value.value].note.serial != serial && ties[r.value.value].pitch == Some(pitch)
      && forall j :: 0 <= j < r.value.value ==> Skipped(ties[j], serial, pitch)
    ensures r == Ok(None) <==> forall j :: 0 <= j < |ties| ==> Skipped(ties[j], serial, pitch)
    ensures r.Err? ==> (r.failure.InternalError? &&
      exists i :: 0 <= i < |ties| && ties[i].note.serial != serial && ties[i].pitch.None? &&
        forall j :: 0 <= j < i ==> Skipped(ties[j], serial, pitch))
  {
    TieMatchFrom(ties, 0, serial, pitch)
  }

  /** The scan of `get_open_tie_by_end_note` from index `from` on. */
  function TieMatchFrom(ties: seq<OpenTie>, from: nat, serial: nat, pitch: Pitch): (r: Result<Option<nat>>)
    requires from <= |ties|
    ensures r.Ok? && r.value.Some? ==>
      && from <= r.value.value < |ties|
      && ties[r.value.value].note.serial != serial && ties[r.value.value].pitch == Some(pitch)
      && forall j :: from <= j < r.value.value ==> Skipped(ties[j], serial, pitch)
    ensures r == Ok(None) <==> forall j :: from <= j < |ties| ==> Skipped(ties[j], serial, pitch)
    ensures r.Err? ==> (r.failure.InternalError? &&
      exists i :: from <= i < |ties| && ties[i].note.serial != serial && ties[i].pitch.None? &&
        forall j :: from <= j < i ==> Skipped(ties[j], serial, pitch))
    decreases |ties| - from
  {
    if from == |ties| then Ok(None)
    else if ties[from].note.serial != serial && ties[from].pitch.None? then
      Err(InternalError("AttributeError: 'NoneType' object has no attribute 'step'"))
    else if ties[from].note.serial != serial && ties[from].pitch == Some(pitch) then Ok(Some(from))
    else TieMatchFrom(ties, from + 1, serial, pitch)
  }

  /** `del self.open_ties[i]`. */
  function WithoutIndex<T>(s: seq<T>, i: nat): (r: seq<T>)
    requires i < |s|
    ensures |r| == |s| - 1
    ensures forall j :: 0 <= j < i ==> r[j] == s[j]
    ensures forall j :: i <= j < |r| ==> r[j] == s[j + 1]
  {
    s[..i] + s[i + 1..]
  }

  /** The pitch the entries of the note of element `serial` carry once that note is parsed:
      the Note object in `open_ties` is the note itself, so it shows its final pitch. */
  function WithFinalPitch(ties: seq<OpenTie>, serial: nat, pitch: Option<Pitch>): (r: seq<OpenTie>)
    ensures |r| == |ties|
    ensures forall i :: 0 <= i < |ties| ==>
      r[i].note == ties[i].note && r[i].pitch == (if ties[i].note.serial == serial then pitch else ties[i].pitch)
  {
    if ties == [] then []
    else
      var first := if ties[0].note.serial == serial then ties[0].(pitch := pitch) else ties[0];
      [first] + WithFinalPitch(ties[1..], serial, pitch)
  }

  /** A tie stop takes the first matching start: another note of the same pitch opened
      earlier. A later start with the same pitch stays open for the next stop. */
  lemma {:induction false} TieStopTakesEarliest(ties: seq<OpenTie>, serial: nat, pitch: Pitch, i: nat, j: nat)
    requires i < j < |ties|
    requires forall k :: 0 <= k < |ties| ==> ties[k].pitch.Some?
    requires ties[i].note.serial != serial && ties[i].pitch == Some(pitch)
    requires ties[j].note.serial != serial && ties[j].pitch == Some(pitch)
    ensures TieMatch(ties, serial, pitch).Ok? && TieMatch(ties, serial, pitch).value.Some?
    ensures TieMatch(ties, serial, pitch).value.value <= i
    ensures ties[j] in WithoutIndex(ties, TieMatch(ties, serial, pitch).value.value)
  {
    var r := TieMatch(ties, serial, pitch);
    assert !Skipped(ties[i], serial, pitch);
    var m := r.value.value;
    assert WithoutIndex(ties, m)[j - 1] == ties[j];
  }

  // ---------------------------------------------------------------------------------------
  // add_slur / heuristic_slur_targets_notes

  /** `start_attrs.get('default-x', '')`. */
  function DefaultX(attrs: map<string, string>): string {
    if "default-x" in attrs then attrs["default-x"] else ""
  }

  /** The Slur `add_slur` leaves on the start event, given the ids of the events holding the
      start and end notes and whether another complete slur joins the same two events. */
  function ResolvedSlur(rec: CompleteSlur, startId: nat, endId: nat, targetsNotes: bool): (s: Slur)
    ensures s.side == rec.side
    ensures s.isIncomplete <==> startId == endId
    ensures s.isIncomplete ==> s.endEventId.None? && s.startNote.None? && s.endNote.None?
    ensures s.isIncomplete ==>
      s.incompleteType == Some(if StartsWithMinusDigit(DefaultX(rec.startAttrs)) then INCOMPLETE_TYPE_INCOMING
                               else INCOMPLETE_TYPE_OUTGOING)
    ensures !s.isIncomplete ==> s.endEventId == Some(endId) && s.incompleteType.None?
    ensures !s.isIncomplete ==> (s.startNote.Some? <==> targetsNotes) && (s.endNote.Some? <==> targetsNotes)
    ensures !s.isIncomplete && targetsNotes ==>
      s.startNote == Some(rec.startNote.number) && s.endNote == Some(rec.endNote.number)
  {
    if startId == endId then
      var t := if StartsWithMinusDigit(DefaultX(rec.startAttrs)) then INCOMPLETE_TYPE_INCOMING else INCOMPLETE_TYPE_OUTGOING;
      Slur(None, rec.side, true, Some(t), None, None)
    else if targetsNotes then
      Slur(Some(endId), rec.side, false, None, Some(rec.startNote.number), Some(rec.endNote.number))
    else
      Slur(Some(endId), rec.side, false, None, None, None)
  }

  /** The event holding a note (by the Note object of its element), if the score has it. */
  function EventOfNote(score: Score, n: NoteRef): Option<Event> {
    EventContainingNote(score, NoteKey(n.serial))
  }

  /** `heuristic_slur_targets_notes`: some other complete slur starts in the same event and
      ends in the same event as slur `i`. */
  predicate SharesEvents(score: Score, recs: seq<CompleteSlur>, i: nat, startId: nat, endId: nat) {
    exists j :: 0 <= j < |recs| && j != i && JoinsEvents(score, recs[j], startId, endId)
  }

  predicate JoinsEvents(score: Score, rec: CompleteSlur, startId: nat, endId: nat) {
    && EventOfNote(score, rec.startNote).Some? && EventOfNote(score, rec.startNote).value.id == startId
    && EventOfNote(score, rec.endNote).Some? && EventOfNote(score, rec.endNote).value.id == endId
  }

  /** The score after `add_slur` for slur record `rec` whose notes sit in `startEv` and
      `endEv`: a complete slur adds the start id to the end event's `slur_ends` and, when it
      targets notes, marks both notes referenced; every slur is appended to the start
      event's `slurs`. */
  function SlurredScore(score: Score, rec: CompleteSlur, startId: nat, endId: nat, targetsNotes: bool): Score {
    var slur := ResolvedSlur(rec, startId, endId, targetsNotes);
    if startId == endId then UpdateEvents(score, AppendSlur(startId, slur))
    else
      var s1 := UpdateEvents(score, AppendSlurEnd(endId, startId));
      var s2 := if targetsNotes then
          UpdateEvents(UpdateEvents(s1, MarkReferenced(rec.startNote.serial)), MarkReferenced(rec.endNote.serial))
        else s1;
      UpdateEvents(s2, AppendSlur(startId, slur))
  }

  /** Resolving a slur edits events in place: every note is afterwards found in an event
      with the same id as before, so later slurs and octave shifts see the same layout. */
  lemma SlurKeepsLayout(score: Score, rec: CompleteSlur, startId: nat, endId: nat, targetsNotes: bool, key: ItemKey)
    ensures var after := SlurredScore(score, rec, startId, endId, targetsNotes);
      && EventIds(ScoreEvents(after)) == EventIds(ScoreEvents(score))
      && (EventContainingNote(after, key).Some? <==> EventContainingNote(score, key).Some?)
      && (EventContainingNote(after, key).Some? ==>
            EventContainingNote(after, key).value.id == EventContainingNote(score, key).value.id)
  {
    var slur := ResolvedSlur(rec, startId, endId, targetsNotes);
    SlurAndTieEditsInPlace(startId, startId, slur, rec.startNote.serial, 0);
    SlurAndTieEditsInPlace(endId, startId, slur, rec.endNote.serial, 0);
    if startId == endId {
      KeepsLayout(score, AppendSlur(startId, slur), key);
    } else {
      var s1 := UpdateEvents(score, AppendSlurEnd(endId, startId));
      KeepsLayout(score, AppendSlurEnd(endId, startId), key);
      var s2 := s1;
      if targetsNotes {
        var s15 := UpdateEvents(s1, MarkReferenced(rec.startNote.serial));
        KeepsLayout(s1, MarkReferenced(rec.startNote.serial), key);
        s2 := UpdateEvents(s15, MarkReferenced(rec.endNote.serial));
        KeepsLayout(s15, MarkReferenced(rec.endNote.serial), key);
      }
      KeepsLayout(s2, AppendSlur(startId, slur), key);
    }
  }

  /** An in-place edit keeps the event ids in scan order and the id of the event holding
      each note. */
  lemma KeepsLayout(score: Score, f: Event -> Event, key: ItemKey)
    requires InPlace(f)
    ensures EventIds(ScoreEvents(UpdateEvents(score, f))) == EventIds(ScoreEvents(score))
    ensures EventContainingNote(UpdateEvents(score, f), key).Some? <==> EventContainingNote(score, key).Some?
    ensures EventContainingNote(UpdateEvents(score, f), key).Some? ==>
      EventContainingNote(UpdateEvents(score, f), key).value.id == EventContainingNote(score, key).value.id
  {
    ScoreEventsOfUpdate(score, f);
    ContainingAfterUpdate(score, f, key);
  }

  // ---------------------------------------------------------------------------------------
  // parse_part (see ## Findings in the README)

  /** `parse_part` as written: it reads `attrib['id']`, which raises KeyError, but catches
      AttributeError, so a missing id escapes as an internal error. */
  function PartAsWritten(el: Element): Result<Part> {
    if "id" !in el.attrs then Err(InternalError("KeyError: 'id'"))
    else Ok(Part(el.attrs["id"], PartName(el)))
  }

  /** `part_name_el.text if part_name_el is not None else None`. */
  function PartName(el: Element): Option<string> {
    match FindChild(el, "part-name")
    case None => None
    case Some(n) => n.text
  }

  /** `parse_part` as intended: a `<score-part>` without an id is a data error. */
  function ParsePart(el: Element): (r: Result<Part>)
    ensures r.Ok? <==> "id" in el.attrs
    ensures r.Err? ==> r.failure == DataError("<score-part> missing 'id' attribute.")
    ensures r.Ok? ==> r.value.partId == el.attrs["id"] && r.value.name == PartName(el)
  {
    if "id" !in el.attrs then Err(DataError("<score-part> missing 'id' attribute."))
    else Ok(Part(el.attrs["id"], PartName(el)))
  }

  /** On a `<score-part>` without an id the source raises an internal error where it meant
      the data error it wrote; the two agree on every part that has an id. */
  lemma MissingPartIdEscapes(attrs: map<string, string>, children: seq<Element>)
    ensures var el := Element("score-part", attrs, None, children);
      && ("id" !in attrs ==> PartAsWritten(el).Err? && PartAsWritten(el).failure.InternalError?
                              && ParsePart(el).Err? && ParsePart(el).failure.DataError?)
      && ("id" in attrs ==> PartAsWritten(el) == ParsePart(el))
  {
  }
}
