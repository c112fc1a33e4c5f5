/** `MusicXMLReader` (mnxconverter/musicxml.py): one pass over a timewise MusicXML document
    that builds the score graph. The reader is a class whose fields are the source's own
    bookkeeping; each parse method changes them as the source does and states the new
    state, and the transitions are specified by the functions of `MusicXmlMarkers`.

    Where the source keeps an object and edits it later (a Note in `open_ties`, a Sequence
    in `current_tuplets`, the BarPart stored in the bar), the model keeps its identity
    (note serial, sequence id, part id) and edits the value found under it. */
module MusicXmlReading {
  import opened Wrappers
  import opened Text
  import opened Fractions
  import opened MusicXmlTree
  import opened MusicXmlFields
  import opened ScoreModel
  import opened MusicXmlMarkers

  // ---------------------------------------------------------------------------------------
  // What a loop over `<attributes>` leaves behind

  /** The clef directions of `<attributes>`, one per `<clef>` in order. */
  function ClefsOf(cs: seq<Element>): (r: seq<Clef>)
    ensures |r| == CountTag(cs, "clef")
  {
    if cs == [] then []
    else
      var c := cs[|cs| - 1];
      ClefsOf(cs[..|cs| - 1]) + (if c.tag == "clef" then [FoldChildren(Clef(None, None), c.children, ClefStep)] else [])
  }

  /** What `parse_measure_attributes` has gathered so far: the clef directions, and the
      key, time and divisions last set. */
  datatype AttributesState = AttributesState(clefs: seq<Clef>, keysig: Option<int>,
                                             timesig: Option<TimeSig>, divisions: Option<int>)

  /** A child of `<attributes>` that ends the read with an error: `<divisions>` text that is
      not an integer, a `<fifths>` without text, or a `<time>` that does not read. */
  predicate AttributeFails(c: Element) {
    || (c.tag == "divisions" && ParseDivisions(c).Err?)
    || (c.tag == "key" && ParseKey(c).Err?)
    || (c.tag == "time" && ParseTime(c).Err?)
  }

  /** The error such a child raises. */
  function AttributeError(c: Element): Failure
    requires AttributeFails(c)
  {
    if c.tag == "divisions" then ParseDivisions(c).failure
    else if c.tag == "key" then ParseKey(c).failure
    else ParseTime(c).failure
  }

  /** Some child in `cs` fails; by recursion on the prefix, as the loop reads it. */
  predicate AnyAttributeFails(cs: seq<Element>)
    decreases |cs|
  {
    |cs| > 0 && (AnyAttributeFails(cs[..|cs| - 1]) || AttributeFails(cs[|cs| - 1]))
  }

  /** Some child of `<attributes>` fails. */
  predicate AttributesFail(el: Element) {
    AnyAttributeFails(el.children)
  }

  /** Child i of `<attributes>` is the first to fail, and its error is `f`. */
  predicate FirstAttributeError(el: Element, i: int, f: Failure) {
    && 0 <= i < |el.children| && AttributeFails(el.children[i])
    && !AnyAttributeFails(el.children[..i])
    && f == AttributeError(el.children[i])
  }

  /** `AttributesFail` read index by index: some child fails. */
  lemma AnyAttributeFailsAt(cs: seq<Element>)
    ensures AnyAttributeFails(cs) <==> exists i :: 0 <= i < |cs| && AttributeFails(cs[i])
  {
    if AnyAttributeFails(cs) {
      var i := FailingAttribute(cs);
    }
    if exists i :: 0 <= i < |cs| && AttributeFails(cs[i]) {
      var i :| 0 <= i < |cs| && AttributeFails(cs[i]);
      FailingAttributeAt(cs, i);
    }
  }

  /** A child that fails, when some does. */
  lemma {:induction false} FailingAttribute(cs: seq<Element>) returns (i: int)
    requires AnyAttributeFails(cs)
    ensures 0 <= i < |cs| && AttributeFails(cs[i])
    decreases |cs|
  {
    var init := cs[..|cs| - 1];
    if AnyAttributeFails(init) {
      i := FailingAttribute(init);
      assert cs[i] == init[i];
    } else {
      i := |cs| - 1;
    }
  }

  /** A failing child at `i` makes the children fail. */
  lemma {:induction false} FailingAttributeAt(cs: seq<Element>, i: int)
    requires 0 <= i < |cs| && AttributeFails(cs[i])
    ensures AnyAttributeFails(cs)
    decreases |cs|
  {
    if i < |cs| - 1 {
      var init := cs[..|cs| - 1];
      assert init[i] == cs[i];
      FailingAttributeAt(init, i);
    }
  }

  /** One child of `<attributes>`. A child that does not parse ends the read with an
      error, so its case leaves the state as it was. */
  function AttributesStep(st: AttributesState, c: Element): AttributesState {
    if c.tag == "clef" then st.(clefs := st.clefs + [FoldChildren(Clef(None, None), c.children, ClefStep)])
    else if c.tag == "divisions" && ParseDivisions(c).Ok? then st.(divisions := Some(ParseDivisions(c).value))
    else if c.tag == "key" && ParseKey(c).Ok? then st.(keysig := Some(ParseKey(c).value))
    else if c.tag == "time" && ParseTime(c).Ok? then st.(timesig := Some(ParseTime(c).value))
    else st
  }

  function AttributesOf(cs: seq<Element>, st: AttributesState): AttributesState {
    FoldChildren(st, cs, AttributesStep)
  }

  /** The clefs are appended in document order. */
  lemma {:induction false} ClefsInOrder(cs: seq<Element>, st: AttributesState)
    ensures AttributesOf(cs, st).clefs == st.clefs + ClefsOf(cs)
  {
    if cs != [] {
      ClefsInOrder(cs[..|cs| - 1], st);
    }
  }

  /** The last `<key>` sets the key; without one the key stays. */
  lemma {:induction false} LastKeyWins(cs: seq<Element>, st: AttributesState)
    requires forall j :: 0 <= j < |cs| && cs[j].tag == "key" ==> ParseKey(cs[j]).Ok?
    ensures AttributesOf(cs, st).keysig ==
      match LastWithTag(cs, "key") case None => st.keysig case Some(k) => Some(ParseKey(k).value)
  {
    if cs != [] {
      var n := |cs| - 1;
      LastKeyWins(cs[..n], st);
      assert cs[..n + 1] == cs;
      TagStep(cs, n, "key");
    }
  }

  /** The last `<time>` sets the time signature; without one it stays. */
  lemma {:induction false} LastTimeWins(cs: seq<Element>, st: AttributesState)
    requires forall j :: 0 <= j < |cs| && cs[j].tag == "time" ==> ParseTime(cs[j]).Ok?
    ensures AttributesOf(cs, st).timesig ==
      match LastWithTag(cs, "time") case None => st.timesig case Some(t) => Some(ParseTime(t).value)
  {
    if cs != [] {
      var n := |cs| - 1;
      LastTimeWins(cs[..n], st);
      assert cs[..n + 1] == cs;
      TagStep(cs, n, "time");
    }
  }

  /** The last `<divisions>` sets the part's divisions; without one they stay. */
  lemma {:induction false} LastDivisionsWin(cs: seq<Element>, st: AttributesState)
    requires forall j :: 0 <= j < |cs| && cs[j].tag == "divisions" ==> ParseDivisions(cs[j]).Ok?
    ensures AttributesOf(cs, st).divisions ==
      match LastWithTag(cs, "divisions") case None => st.divisions case Some(d) => Some(ParseDivisions(d).value)
  {
    if cs != [] {
      var n := |cs| - 1;
      LastDivisionsWin(cs[..n], st);
      assert cs[..n + 1] == cs;
      TagStep(cs, n, "divisions");
    }
  }

  // ---------------------------------------------------------------------------------------
  // The bar being read and its bar parts

  function LastBar(score: Score): Bar
    requires |score.bars| > 0
  {
    score.bars[|score.bars| - 1]
  }

  function WithLastBar(score: Score, bar: Bar): (r: Score)
    requires |score.bars| > 0
    ensures r.parts == score.parts && |r.bars| == |score.bars| && LastBar(r) == bar
    ensures r.bars[..|r.bars| - 1] == score.bars[..|score.bars| - 1]
  {
    score.(bars := score.bars[|score.bars| - 1 := bar])
  }

  function SequenceIds(bp: BarPart): (ids: seq<string>)
    ensures |ids| == |bp.sequences|
    ensures forall j :: 0 <= j < |ids| ==> ids[j] == bp.sequences[j].sequenceId
  {
    seq(|bp.sequences|, j requires 0 <= j < |bp.sequences| => bp.sequences[j].sequenceId)
  }

  /** The sequence ids of the bar part stored under `partId` in the last bar. */
  function StoredIds(score: Score, partId: string): Option<seq<string>> {
    if |score.bars| == 0 then None
    else
      match LookupBarPart(LastBar(score).barParts, partId)
      case None => None
      case Some(bp) => Some(SequenceIds(bp))
  }

  lemma {:induction false} LookupOfMap(parts: seq<(string, BarPart)>, partId: string, g: seq<Item> -> seq<Item>)
    ensures LookupBarPart(MapBarParts(parts, g), partId) ==
      match LookupBarPart(parts, partId) case None => None case Some(bp) => Some(MapBarPart(bp, g))
  {
    if parts != [] {
      assert MapBarParts(parts, g)[1..] == MapBarParts(parts[1..], g);
      LookupOfMap(parts[1..], partId, g);
    }
  }

  /** Rewriting item lists throughout the score keeps every stored bar part and the ids of
      its sequences. */
  lemma MapScoreKeepsStored(score: Score, g: seq<Item> -> seq<Item>, partId: string)
    ensures StoredIds(MapScore(score, g), partId) == StoredIds(score, partId)
  {
    if |score.bars| > 0 {
      LookupOfMap(LastBar(score).barParts, partId, g);
      match LookupBarPart(LastBar(score).barParts, partId)
      case None =>
      case Some(bp) =>
        assert SequenceIds(MapBarPart(bp, g)) == SequenceIds(bp);
    }
  }

  lemma SlurredKeepsStored(score: Score, rec: CompleteSlur, startId: nat, endId: nat, targetsNotes: bool, partId: string)
    ensures StoredIds(SlurredScore(score, rec, startId, endId, targetsNotes), partId) == StoredIds(score, partId)
  {
    var slur := ResolvedSlur(rec, startId, endId, targetsNotes);
    if startId == endId {
      MapScoreKeepsStored(score, EventUpdate(AppendSlur(startId, slur)), partId);
    } else {
      var s1 := UpdateEvents(score, AppendSlurEnd(endId, startId));
      MapScoreKeepsStored(score, EventUpdate(AppendSlurEnd(endId, startId)), partId);
      var s15 := UpdateEvents(s1, MarkReferenced(rec.startNote.serial));
      MapScoreKeepsStored(s1, EventUpdate(MarkReferenced(rec.startNote.serial)), partId);
      MapScoreKeepsStored(s15, EventUpdate(MarkReferenced(rec.endNote.serial)), partId);
      var s2 := if targetsNotes then UpdateEvents(s15, MarkReferenced(rec.endNote.serial)) else s1;
      MapScoreKeepsStored(s2, EventUpdate(AppendSlur(startId, slur)), partId);
    }
  }

  /** A slur adds to events in place: the parts, the number of bars, the event ids and the
      sequence ids stored for every part are what they were. */
  lemma SlurredKeepsFrame(score: Score, rec: CompleteSlur, startId: nat, endId: nat, targetsNotes: bool)
    ensures var after := SlurredScore(score, rec, startId, endId, targetsNotes);
      && after.parts == score.parts && |after.bars| == |score.bars|
      && EventIds(ScoreEvents(after)) == EventIds(ScoreEvents(score))
      && forall p :: StoredIds(after, p) == StoredIds(score, p)
  {
    SlurKeepsLayout(score, rec, startId, endId, targetsNotes, NoteKey(0));
    forall p {
      SlurredKeepsStored(score, rec, startId, endId, targetsNotes, p);
    }
  }

  // ---------------------------------------------------------------------------------------
  // The end-of-measure passes as functions of the score

  /** The bar part stored under `partId` in the last bar. */
  function StoredBarPart(score: Score, partId: string): (r: Option<BarPart>)
    ensures StoredIds(score, partId) == if r.Some? then Some(SequenceIds(r.value)) else None
  {
    if |score.bars| == 0 then None else LookupBarPart(LastBar(score).barParts, partId)
  }

  /** The score with `bp` stored under `partId` in the last bar. */
  function WithStoredBarPart(score: Score, partId: string, bp: BarPart): (r: Score)
    requires |score.bars| > 0
    ensures r.parts == score.parts && |r.bars| == |score.bars|
    ensures StoredBarPart(r, partId) == Some(bp)
  {
    var bar := LastBar(score);
    LookupAfterSet(bar.barParts, partId, bp);
    WithLastBar(score, bar.(barParts := SetBarPart(bar.barParts, partId, bp)))
  }

  /** `add_slur` for complete slur `i` of `recs`: an error when either note is in no event;
      otherwise `SlurredScore`, asking the heuristic only for a slur between two events.
      Events are edited in place. */
  function SlurAdded(score: Score, recs: seq<CompleteSlur>, i: nat): (r: Result<Score>)
    requires i < |recs|
    ensures r.Ok? <==> EventOfNote(score, recs[i].startNote).Some? && EventOfNote(score, recs[i].endNote).Some?
    ensures r.Ok? ==> r.value.parts == score.parts && |r.value.bars| == |score.bars|
    ensures r.Ok? ==> forall p {:trigger StoredIds(r.value, p)} :: StoredIds(r.value, p) == StoredIds(score, p)
    ensures r.Ok? ==> ScoreLayout(r.value) == ScoreLayout(score)
  {
    var s := EventOfNote(score, recs[i].startNote);
    var e := EventOfNote(score, recs[i].endNote);
    if s.None? || e.None? then Err(InternalError("AttributeError: 'NoneType' object has no attribute 'slurs'"))
    else
      var targets := s.value.id != e.value.id && SharesEvents(score, recs, i, s.value.id, e.value.id);
      SlurredKeepsFrame(score, recs[i], s.value.id, e.value.id, targets);
      SlurredKeepsLayout(score, recs[i], s.value.id, e.value.id, targets);
      Ok(SlurredScore(score, recs[i], s.value.id, e.value.id, targets))
  }

  /** The slur pass: `add_slur` for slurs `k..` of `recs` in order, stopping at the first
      error. */
  function SlursAdded(score: Score, recs: seq<CompleteSlur>, k: nat): (r: Result<Score>)
    requires k <= |recs|
    ensures r.Ok? ==> r.value.parts == score.parts && |r.value.bars| == |score.bars|
    ensures r.Ok? ==> forall p {:trigger StoredIds(r.value, p)} :: StoredIds(r.value, p) == StoredIds(score, p)
    ensures r.Ok? ==> ScoreLayout(r.value) == ScoreLayout(score)
    ensures r.Ok? ==> ScoreHeads(r.value) == ScoreHeads(score)
    decreases |recs| - k
  {
    if k == |recs| then Ok(score)
    else
      match SlurAdded(score, recs, k)
      case Err(f) => Err(f)
      case Ok(s1) => SlurAddedKeepsHeads(score, recs, k, s1); SlursAdded(s1, recs, k + 1)
  }

  /** One step of the slur pass: slur `k` applied, then the rest. */
  lemma SlursAddedStep(score: Score, recs: seq<CompleteSlur>, k: nat, s1: Result<Score>)
    requires k < |recs| && SlurAdded(score, recs, k) == s1
    ensures s1.Err? ==> SlursAdded(score, recs, k) == Err(s1.failure)
    ensures s1.Ok? ==> SlursAdded(score, recs, k) == SlursAdded(s1.value, recs, k + 1)
  {
  }

  /** `set_tuplet` for pending tuplet `t`: the items of its sequence in the stored bar part
      folded by TupletFold, or the fold's error. */
  function TupletFolded(score: Score, partId: string, t: PendingTuplet): (r: Result<Score>)
    requires StoredIds(score, partId).Some? && t.sequenceId in StoredIds(score, partId).value
    ensures r.Ok? <==> TupletFold(VoiceItems(StoredBarPart(score, partId).value, t.sequenceId), t.eventIds, t.ratio).Ok?
    ensures r.Ok? ==> r.value.parts == score.parts && |r.value.bars| == |score.bars|
    ensures r.Ok? ==> StoredIds(r.value, partId) == StoredIds(score, partId)
  {
    var bp := StoredBarPart(score, partId).value;
    match TupletFold(VoiceItems(bp, t.sequenceId), t.eventIds, t.ratio)
    case Err(f) => Err(f)
    case Ok(items) =>
      WithVoiceItemsKeepsIds(bp, t.sequenceId, items);
      Ok(WithStoredBarPart(score, partId, WithVoiceItems(bp, t.sequenceId, items)))
  }

  /** The tuplet pass: `set_tuplet` for each pending tuplet in order, stopping at the first
      error. */
  function TupletsFolded(score: Score, partId: string, ts: seq<PendingTuplet>): (r: Result<Score>)
    requires StoredIds(score, partId).Some?
    requires forall t :: t in ts ==> t.sequenceId in StoredIds(score, partId).value
    ensures r.Ok? ==> r.value.parts == score.parts && |r.value.bars| == |score.bars|
    ensures r.Ok? ==> StoredIds(r.value, partId) == StoredIds(score, partId)
    decreases ts
  {
    if ts == [] then Ok(score)
    else
      match TupletFolded(score, partId, ts[0])
      case Err(f) => Err(f)
      case Ok(s1) => TupletsFolded(s1, partId, ts[1..])
  }

  /** `add_octave_shift`: an error when the shift has no member, when its first member is in
      no event or when the location of its last member's event cannot be found; otherwise the
      marker inserted before the first member's event. */
  function ShiftAdded(score: Score, shift: OpenShift): (r: Result<Score>)
    ensures r.Ok? ==> r.value.parts == score.parts && |r.value.bars| == |score.bars|
  {
    if shift.members == [] then Err(InternalError("IndexError: list index out of range"))
    else
      var start := EventContainingNote(score, shift.members[0]);
      var end := EventContainingNote(score, shift.members[|shift.members| - 1]);
      if start.None? then Err(InternalError("AttributeError: 'NoneType' object has no attribute 'insert_before'"))
      else
        match MeasureLocation(score, if end.Some? then Some(end.value.id) else None)
        case Err(f) => Err(f)
        case Ok(pos) =>
          var g := MarkerInsertion(start.value.id, OctaveShift(shift.shiftType, pos));
          Ok(MapScore(score, g))
  }

  /** A shift that is added inserts its marker before the start event: the score is
      rewritten item list by item list, and the rewrite inserts an octave-shift marker of
      the shift's type before the event holding the first member. */
  lemma ShiftAddedInserts(score: Score, shift: OpenShift) returns (g: seq<Item> -> seq<Item>)
    requires ShiftAdded(score, shift).Ok?
    ensures ShiftAdded(score, shift).value == MapScore(score, g)
    ensures shift.members != [] && EventContainingNote(score, shift.members[0]).Some?
    ensures exists endPos: string ::
              g == MarkerInsertion(EventContainingNote(score, shift.members[0]).value.id, OctaveShift(shift.shiftType, endPos))
  {
    assert shift.members != [];
    var first, last := shift.members[0], shift.members[|shift.members| - 1];
    var start, end := EventContainingNote(score, first), EventContainingNote(score, last);
    var loc := MeasureLocation(score, if end.Some? then Some(end.value.id) else None);
    assert start.Some? && loc.Ok?;
    g := MarkerInsertion(start.value.id, OctaveShift(shift.shiftType, loc.value));
  }

  /** The octave-shift pass: `add_octave_shift` for each complete shift in order, stopping
      at the first error. */
  function ShiftsAdded(score: Score, shifts: seq<OpenShift>): (r: Result<Score>)
    ensures r.Ok? ==> r.value.parts == score.parts && |r.value.bars| == |score.bars|
    decreases shifts
  {
    if shifts == [] then Ok(score)
    else
      match ShiftAdded(score, shifts[0])
      case Err(f) => Err(f)
      case Ok(s1) => ShiftsAdded(s1, shifts[1..])
  }

  /** The end of `parse_measure_part` as a function: the slur pass, then the tuplet pass,
      then the octave-shift pass, each on the score the one before left. */
  function MeasurePartFinished(score: Score, partId: string, slurs: seq<CompleteSlur>,
                               tuplets: seq<PendingTuplet>, shifts: seq<OpenShift>): (r: Result<Score>)
    requires StoredIds(score, partId).Some?
    requires forall t :: t in tuplets ==> t.sequenceId in StoredIds(score, partId).value
    ensures r.Ok? ==> r.value.parts == score.parts && |r.value.bars| == |score.bars|
    ensures r.Ok? ==> StoredIds(r.value, partId) == StoredIds(score, partId)
  {
    match SlursAdded(score, slurs, 0)
    case Err(f) => Err(f)
    case Ok(s1) => TupletsAndShiftsAdded(s1, partId, tuplets, shifts)
  }

  /** The last two passes of a measure part: tuplets, then octave shifts. */
  function TupletsAndShiftsAdded(score: Score, partId: string, tuplets: seq<PendingTuplet>,
                                 shifts: seq<OpenShift>): (r: Result<Score>)
    requires StoredIds(score, partId).Some?
    requires forall t :: t in tuplets ==> t.sequenceId in StoredIds(score, partId).value
    ensures r.Ok? ==> r.value.parts == score.parts && |r.value.bars| == |score.bars|
    ensures r.Ok? ==> StoredIds(r.value, partId) == StoredIds(score, partId)
  {
    match TupletsFolded(score, partId, tuplets)
    case Err(f) => Err(f)
    case Ok(s2) =>
      ShiftsAddedKeepStored(s2, shifts, partId);
      ShiftsAdded(s2, shifts)
  }

  /** MeasurePartFinished pass by pass: the first pass that fails gives the result, and the
      tuplet pass may run on what the slur pass leaves. */
  lemma MeasurePartFinishedSteps(score: Score, partId: string, slurs: seq<CompleteSlur>,
                                 tuplets: seq<PendingTuplet>, shifts: seq<OpenShift>)
    requires StoredIds(score, partId).Some?
    requires forall t :: t in tuplets ==> t.sequenceId in StoredIds(score, partId).value
    ensures var r := MeasurePartFinished(score, partId, slurs, tuplets, shifts);
      var s1 := SlursAdded(score, slurs, 0);
      && (s1.Err? ==> r == Err(s1.failure))
      && (s1.Ok? ==> StoredIds(s1.value, partId) == StoredIds(score, partId))
      && (s1.Ok? ==> r == TupletsAndShiftsAdded(s1.value, partId, tuplets, shifts))
  {
  }

  /** The octave-shift pass only inserts markers: every stored bar part keeps its sequence
      ids. */
  lemma {:induction false} ShiftsAddedKeepStored(score: Score, shifts: seq<OpenShift>, partId: string)
    ensures ShiftsAdded(score, shifts).Ok? ==> StoredIds(ShiftsAdded(score, shifts).value, partId) == StoredIds(score, partId)
    decreases shifts
  {
    if shifts != [] && ShiftAdded(score, shifts[0]).Ok? {
      var shift := shifts[0];
      var start := EventContainingNote(score, shift.members[0]);
      var end := EventContainingNote(score, shift.members[|shift.members| - 1]);
      var pos := MeasureLocation(score, if end.Some? then Some(end.value.id) else None).value;
      MapScoreKeepsStored(score, MarkerInsertion(start.value.id, OctaveShift(shift.shiftType, pos)), partId);
      ShiftsAddedKeepStored(ShiftAdded(score, shift).value, shifts[1..], partId);
    }
  }

  lemma WithVoiceItemsKeepsIds(bp: BarPart, sequenceId: string, items: seq<Item>)
    requires sequenceId in SequenceIds(bp)
    ensures SequenceIds(WithVoiceItems(bp, sequenceId, items)) == SequenceIds(bp)
  {
    var j :| 0 <= j < |bp.sequences| && SequenceIds(bp)[j] == sequenceId;
    assert VoiceIndex(bp.sequences, sequenceId) <= j;
  }

  // ---------------------------------------------------------------------------------------
  // The layout of the score: for every bar, its bar parts in order, each with the ids of
  // its sequences and its directions. The end-of-measure passes keep it; reading a
  // measure part sets one entry of the last bar.

  datatype Layout = Layout(ids: seq<string>, clefs: seq<Clef>)

  function LayoutOf(bp: BarPart): Layout {
    Layout(SequenceIds(bp), bp.directions)
  }

  function PartsLayout(parts: seq<(string, BarPart)>): seq<(string, Layout)> {
    seq(|parts|, i requires 0 <= i < |parts| => (parts[i].0, LayoutOf(parts[i].1)))
  }

  function ScoreLayout(score: Score): seq<seq<(string, Layout)>> {
    seq(|score.bars|, i requires 0 <= i < |score.bars| => PartsLayout(score.bars[i].barParts))
  }

  /** `SetBarPart` on layouts: the first entry with the key is replaced, or one is appended. */
  function SetLayout(ls: seq<(string, Layout)>, partId: string, l: Layout): (r: seq<(string, Layout)>)
    ensures (forall i :: 0 <= i < |ls| ==> ls[i].0 != partId) ==> r == ls + [(partId, l)]
  {
    if ls == [] then [(partId, l)]
    else if ls[0].0 == partId then [(partId, l)] + ls[1..]
    else [ls[0]] + SetLayout(ls[1..], partId, l)
  }

  /** `get_or_create_sequence` on the ids: a new voice is appended, a known one changes nothing. */
  function AddedVoice(ids: seq<string>, voice: string): seq<string> {
    if voice in ids then ids else ids + [voice]
  }

  /** The layout with `l` stored under `partId` in the last bar. */
  function WithPartLayout(ls: seq<seq<(string, Layout)>>, partId: string, l: Layout): seq<seq<(string, Layout)>>
    requires ls != []
  {
    ls[|ls| - 1 := SetLayout(ls[|ls| - 1], partId, l)]
  }

  /** Rewriting item lists keeps every bar part's layout. */
  lemma MapScoreKeepsLayout(score: Score, g: seq<Item> -> seq<Item>)
    ensures ScoreLayout(MapScore(score, g)) == ScoreLayout(score)
  {
    forall i | 0 <= i < |score.bars|
      ensures PartsLayout(MapBarParts(score.bars[i].barParts, g)) == PartsLayout(score.bars[i].barParts)
    {
      var parts := score.bars[i].barParts;
      forall j | 0 <= j < |parts| ensures LayoutOf(MapBarPart(parts[j].1, g)) == LayoutOf(parts[j].1) {
        assert SequenceIds(MapBarPart(parts[j].1, g)) == SequenceIds(parts[j].1);
      }
    }
  }

  /** The layout of a part list with one more part in front. */
  lemma PartsLayoutCons(p: (string, BarPart), rest: seq<(string, BarPart)>)
    ensures PartsLayout([p] + rest) == [(p.0, LayoutOf(p.1))] + PartsLayout(rest)
  {
    var l, r := PartsLayout([p] + rest), [(p.0, LayoutOf(p.1))] + PartsLayout(rest);
    assert |l| == |r|;
    forall i | 0 <= i < |l| ensures l[i] == r[i] {
      if i > 0 {
        assert ([p] + rest)[i] == rest[i - 1];
      }
    }
  }

  /** Storing a bar part sets its layout under the part id. */
  lemma {:induction false} SetBarPartLayout(parts: seq<(string, BarPart)>, partId: string, bp: BarPart)
    ensures PartsLayout(SetBarPart(parts, partId, bp)) == SetLayout(PartsLayout(parts), partId, LayoutOf(bp))
  {
    if parts != [] {
      assert parts == [parts[0]] + parts[1..];
      PartsLayoutCons(parts[0], parts[1..]);
      if parts[0].0 == partId {
        PartsLayoutCons((partId, bp), parts[1..]);
      } else {
        SetBarPartLayout(parts[1..], partId, bp);
        PartsLayoutCons(parts[0], SetBarPart(parts[1..], partId, bp));
      }
    }
  }

  /** Storing a bar part sets its layout in the last bar. */
  lemma StoredLayout(score: Score, partId: string, bp: BarPart)
    requires |score.bars| > 0
    ensures ScoreLayout(WithStoredBarPart(score, partId, bp)) == WithPartLayout(ScoreLayout(score), partId, LayoutOf(bp))
  {
    SetBarPartLayout(LastBar(score).barParts, partId, bp);
  }

  /** Replacing a stored bar part by one with the same layout keeps the key's entry. */
  lemma {:induction false} SetSameLayout(parts: seq<(string, BarPart)>, partId: string, l: Layout)
    requires LookupBarPart(parts, partId).Some? && LayoutOf(LookupBarPart(parts, partId).value) == l
    ensures SetLayout(PartsLayout(parts), partId, l) == PartsLayout(parts)
  {
    assert PartsLayout(parts) == [(parts[0].0, LayoutOf(parts[0].1))] + PartsLayout(parts[1..]);
    if parts[0].0 != partId {
      SetSameLayout(parts[1..], partId, l);
    }
  }

  /** The ids only grow, and the voice is among them. */
  lemma AddedVoiceGrows(ids: seq<string>, voice: string)
    ensures ids <= AddedVoice(ids, voice) && voice in AddedVoice(ids, voice)
  {
  }

  /** Writing a sequence's items by id adds the id when it is new; the directions stay. */
  lemma WithVoiceItemsLayout(bp: BarPart, voice: string, items: seq<Item>)
    ensures LayoutOf(WithVoiceItems(bp, voice, items)) == Layout(AddedVoice(SequenceIds(bp), voice), bp.directions)
  {
    if voice in SequenceIds(bp) {
      WithVoiceItemsKeepsIds(bp, voice, items);
    } else {
      assert SequenceIds(WithVoiceItems(bp, voice, items)) == SequenceIds(bp) + [voice];
    }
  }

  lemma SlurredKeepsLayout(score: Score, rec: CompleteSlur, startId: nat, endId: nat, targetsNotes: bool)
    ensures ScoreLayout(SlurredScore(score, rec, startId, endId, targetsNotes)) == ScoreLayout(score)
  {
    var slur := ResolvedSlur(rec, startId, endId, targetsNotes);
    if startId == endId {
      MapScoreKeepsLayout(score, EventUpdate(AppendSlur(startId, slur)));
    } else {
      var s1 := UpdateEvents(score, AppendSlurEnd(endId, startId));
      MapScoreKeepsLayout(score, EventUpdate(AppendSlurEnd(endId, startId)));
      var s15 := UpdateEvents(s1, MarkReferenced(rec.startNote.serial));
      MapScoreKeepsLayout(s1, EventUpdate(MarkReferenced(rec.startNote.serial)));
      MapScoreKeepsLayout(s15, EventUpdate(MarkReferenced(rec.endNote.serial)));
      var s2 := if targetsNotes then UpdateEvents(s15, MarkReferenced(rec.endNote.serial)) else s1;
      MapScoreKeepsLayout(s2, EventUpdate(AppendSlur(startId, slur)));
    }
  }

  /** The tuplet pass regroups items within their sequences and keeps the layout. */
  lemma {:induction false} TupletsFoldedKeepLayout(score: Score, partId: string, ts: seq<PendingTuplet>)
    requires StoredIds(score, partId).Some?
    requires forall t :: t in ts ==> t.sequenceId in StoredIds(score, partId).value
    ensures TupletsFolded(score, partId, ts).Ok? ==> ScoreLayout(TupletsFolded(score, partId, ts).value) == ScoreLayout(score)
    decreases ts
  {
    if ts != [] && TupletFolded(score, partId, ts[0]).Ok? {
      var bp := StoredBarPart(score, partId).value;
      var items := TupletFold(VoiceItems(bp, ts[0].sequenceId), ts[0].eventIds, ts[0].ratio).value;
      WithVoiceItemsLayout(bp, ts[0].sequenceId, items);
      StoredLayout(score, partId, WithVoiceItems(bp, ts[0].sequenceId, items));
      SetSameLayout(LastBar(score).barParts, partId, LayoutOf(bp));
      assert ScoreLayout(TupletFolded(score, partId, ts[0]).value) == ScoreLayout(score);
      TupletsFoldedKeepLayout(TupletFolded(score, partId, ts[0]).value, partId, ts[1..]);
    }
  }

  /** The octave-shift pass keeps the layout: every bar part's voices and clefs. */
  lemma {:induction false} ShiftsAddedKeepLayout(score: Score, shifts: seq<OpenShift>)
    ensures ShiftsAdded(score, shifts).Ok? ==> ScoreLayout(ShiftsAdded(score, shifts).value) == ScoreLayout(score)
    decreases shifts
  {
    if shifts != [] && ShiftAdded(score, shifts[0]).Ok? {
      var g := ShiftAddedInserts(score, shifts[0]);
      MapScoreKeepsLayout(score, g);
      ShiftsAddedKeepLayout(ShiftAdded(score, shifts[0]).value, shifts[1..]);
    }
  }

  /** The end of a measure part keeps the layout of the whole score. */
  lemma MeasurePartFinishedKeepsLayout(score: Score, partId: string, slurs: seq<CompleteSlur>,
                                       tuplets: seq<PendingTuplet>, shifts: seq<OpenShift>)
    requires StoredIds(score, partId).Some?
    requires forall t :: t in tuplets ==> t.sequenceId in StoredIds(score, partId).value
    ensures MeasurePartFinished(score, partId, slurs, tuplets, shifts).Ok? ==>
      ScoreLayout(MeasurePartFinished(score, partId, slurs, tuplets, shifts).value) == ScoreLayout(score)
  {
    MeasurePartFinishedSteps(score, partId, slurs, tuplets, shifts);
    var s1 := SlursAdded(score, slurs, 0);
    if s1.Ok? {
      TupletsFoldedKeepLayout(s1.value, partId, tuplets);
      var s2 := TupletsFolded(s1.value, partId, tuplets);
      if s2.Ok? {
        ShiftsAddedKeepLayout(s2.value, shifts);
      }
    }
  }

  // ---------------------------------------------------------------------------------------
  // The bars' own fields

  /** A bar without its bar parts: its time and key signatures, its repeats and endings. */
  function Head(bar: Bar): Bar {
    bar.(barParts := [])
  }

  /** The own fields of every bar of the score. */
  function ScoreHeads(score: Score): (r: seq<Bar>)
    ensures |r| == |score.bars|
  {
    seq(|score.bars|, i requires 0 <= i < |score.bars| => Head(score.bars[i]))
  }

  /** What one child of `<part>` does to the bar's own fields: `<attributes>` sets the key
      and the time its children give, `<barline>` the repeats and the endings, and every
      other child leaves them. A `<barline>` that fails ends the reading of the score, so
      that step is never taken on a score that reads. */
  function HeadStep(bar: Bar, c: Element): Bar {
    if c.tag == "attributes" then
      var st := AttributesOf(c.children, AttributesState([], bar.keysig, bar.timesig, None));
      bar.(keysig := st.keysig, timesig := st.timesig)
    else if c.tag == "barline" && BarlineSpec(c, bar).Ok? then BarlineSpec(c, bar).value
    else bar
  }

  /** The bar's own fields after the children of one `<part>` element of a measure. */
  function PartHead(bar: Bar, cs: seq<Element>): Bar {
    FoldChildren(bar, cs, HeadStep)
  }

  function PartHeadStep(bar: Bar, part: Element): Bar {
    PartHead(bar, part.children)
  }

  /** The own fields of the bar one `<measure>` gives: a new bar, then each of its `<part>`
      elements in turn. */
  function MeasureHead(measure: Element): Bar {
    FoldChildren(NewBar(), ChildrenWithTag(measure.children, "part"), PartHeadStep)
  }

  function MeasureHeads(measures: seq<Element>): (r: seq<Bar>)
    ensures |r| == |measures|
  {
    seq(|measures|, i requires 0 <= i < |measures| => MeasureHead(measures[i]))
  }

  /** `s1` holds the bars of `s0`; their own fields stay, but for the last bar's, which
      are `last`. */
  ghost predicate LastHeadIs(s0: Score, s1: Score, last: Bar) {
    && |s1.bars| == |s0.bars| > 0
    && (forall i :: 0 <= i < |s0.bars| - 1 ==> Head(s1.bars[i]) == Head(s0.bars[i]))
    && Head(LastBar(s1)) == last
  }

  /** A `<barline>` reads the same on a bar with or without its bar parts. */
  lemma {:induction false} BarlineOnHead(bar: Bar, cs: seq<Element>)
    ensures var a, b := FoldChildren(Ok(bar), cs, BarlineStep), FoldChildren(Ok(Head(bar)), cs, BarlineStep);
      && (a.Ok? <==> b.Ok?)
      && (a.Ok? ==> Head(a.value) == b.value)
  {
    if cs != [] {
      var n := |cs| - 1;
      BarlineOnHead(bar, cs[..n]);
      var a := FoldChildren(Ok(bar), cs[..n], BarlineStep);
      if a.Ok? && cs[n].tag == "ending" {
        var x := a.value;
        assert Head(ParseEnding(cs[n], x)) == ParseEnding(cs[n], Head(x));
      }
    }
  }

  /** A step on the last bar, seen through its own fields, is the step on those fields. */
  lemma HeadStepOnHead(bar: Bar, c: Element)
    ensures Head(HeadStep(bar, c)) == HeadStep(Head(bar), c)
  {
    if c.tag == "barline" {
      BarlineOnHead(bar, c.children);
    }
  }

  /** Rewriting item lists leaves the bars' own fields. */
  lemma MapScoreKeepsHeads(score: Score, g: seq<Item> -> seq<Item>)
    ensures ScoreHeads(MapScore(score, g)) == ScoreHeads(score)
  {
    var s := MapScore(score, g);
    forall i | 0 <= i < |score.bars| ensures Head(s.bars[i]) == Head(score.bars[i]) {
      assert s.bars[i] == score.bars[i].(barParts := MapBarParts(score.bars[i].barParts, g));
    }
  }

  /** Replacing the last bar sets only the last entry of the own fields. */
  lemma WithLastBarHeads(score: Score, bar: Bar)
    requires |score.bars| > 0
    ensures ScoreHeads(WithLastBar(score, bar)) == ScoreHeads(score)[|score.bars| - 1 := Head(bar)]
  {
  }

  /** A step that keeps every bar's own fields, in the form of `LastHeadIs`. */
  lemma SameHeadsLastHead(s0: Score, s1: Score)
    requires |s0.bars| > 0 && ScoreHeads(s1) == ScoreHeads(s0)
    ensures LastHeadIs(s0, s1, Head(LastBar(s0)))
  {
    assert forall i :: 0 <= i < |s0.bars| ==> ScoreHeads(s1)[i] == Head(s1.bars[i]) && ScoreHeads(s0)[i] == Head(s0.bars[i]);
  }

  /** `LastHeadIs`, then a step that keeps every bar's own fields. */
  lemma LastHeadThenSame(s0: Score, s1: Score, s2: Score, last: Bar)
    requires LastHeadIs(s0, s1, last) && ScoreHeads(s2) == ScoreHeads(s1)
    ensures LastHeadIs(s0, s2, last)
  {
    SameHeadsLastHead(s1, s2);
  }

  /** After one more `<part>` of a measure, the bars before the new one keep their own
      fields and the new one has `last`'s. */
  lemma HeadsAfterPart(bars: seq<Bar>, s0: Score, s1: Score, last: Bar)
    requires |s0.bars| == |bars| + 1
    requires forall i :: 0 <= i < |bars| ==> Head(s0.bars[i]) == Head(bars[i])
    requires LastHeadIs(s0, s1, last)
    ensures forall i :: 0 <= i < |bars| ==> Head(s1.bars[i]) == Head(bars[i])
    ensures Head(LastBar(s1)) == last
  {
  }

  /** Replacing the last bar gives it the new bar's own fields. */
  lemma WithLastBarLastHead(score: Score, bar: Bar)
    requires |score.bars| > 0
    ensures LastHeadIs(score, WithLastBar(score, bar), Head(bar))
  {
    var s := WithLastBar(score, bar);
    forall i | 0 <= i < |score.bars| - 1 ensures s.bars[i] == score.bars[i] {
      assert s.bars[i] == s.bars[..|s.bars| - 1][i];
    }
  }

  /** Children with neither `<attributes>` nor `<barline>` leave the bar's own fields. */
  lemma {:induction false} PlainPartHead(bar: Bar, cs: seq<Element>)
    requires forall k :: 0 <= k < |cs| ==> cs[k].tag != "attributes" && cs[k].tag != "barline"
    ensures PartHead(bar, cs) == bar
  {
    if cs != [] {
      PlainPartHead(bar, cs[..|cs| - 1]);
    }
  }

  /** A measure none of whose parts has an `<attributes>` or a `<barline>` child gives a
      bar with no key, no time, no repeat and no ending. */
  lemma {:induction false} PlainMeasureHead(parts: seq<Element>)
    requires forall j, k :: 0 <= j < |parts| && 0 <= k < |parts[j].children| ==>
      parts[j].children[k].tag != "attributes" && parts[j].children[k].tag != "barline"
    ensures FoldChildren(NewBar(), parts, PartHeadStep) == NewBar()
  {
    if parts != [] {
      var n := |parts| - 1;
      PlainMeasureHead(parts[..n]);
      PlainPartHead(NewBar(), parts[n].children);
    }
  }

  /** A bar added at the end with own fields `h`, the others keeping theirs. */
  lemma HeadsAppended(s0: Score, s1: Score, h: Bar)
    requires |s1.bars| == |s0.bars| + 1
    requires forall i :: 0 <= i < |s0.bars| ==> Head(s1.bars[i]) == Head(s0.bars[i])
    requires Head(LastBar(s1)) == h
    ensures ScoreHeads(s1) == ScoreHeads(s0) + [h]
  {
  }

  /** One more `<measure>` of the document. */
  lemma MeasureHeadsStep(measures: seq<Element>, i: nat)
    requires i < |measures|
    ensures MeasureHeads(measures[..i + 1]) == MeasureHeads(measures[..i]) + [MeasureHead(measures[i])]
  {
    assert forall k :: 0 <= k < i ==> measures[..i + 1][k] == measures[..i][k];
  }

  /** Storing a bar part leaves the bars' own fields. */
  lemma StoredKeepsHeads(score: Score, partId: string, bp: BarPart)
    requires |score.bars| > 0
    ensures ScoreHeads(WithStoredBarPart(score, partId, bp)) == ScoreHeads(score)
  {
    var bar := LastBar(score);
    WithLastBarHeads(score, bar.(barParts := SetBarPart(bar.barParts, partId, bp)));
  }

  lemma SlurredKeepsHeads(score: Score, rec: CompleteSlur, startId: nat, endId: nat, targetsNotes: bool)
    ensures ScoreHeads(SlurredScore(score, rec, startId, endId, targetsNotes)) == ScoreHeads(score)
  {
    var slur := ResolvedSlur(rec, startId, endId, targetsNotes);
    if startId == endId {
      MapScoreKeepsHeads(score, EventUpdate(AppendSlur(startId, slur)));
    } else {
      var s1 := UpdateEvents(score, AppendSlurEnd(endId, startId));
      MapScoreKeepsHeads(score, EventUpdate(AppendSlurEnd(endId, startId)));
      var s15 := UpdateEvents(s1, MarkReferenced(rec.startNote.serial));
      MapScoreKeepsHeads(s1, EventUpdate(MarkReferenced(rec.startNote.serial)));
      MapScoreKeepsHeads(s15, EventUpdate(MarkReferenced(rec.endNote.serial)));
      var s2 := if targetsNotes then UpdateEvents(s15, MarkReferenced(rec.endNote.serial)) else s1;
      MapScoreKeepsHeads(s2, EventUpdate(AppendSlur(startId, slur)));
    }
  }

  /** One slur edits events in place and leaves the bars' own fields. */
  lemma SlurAddedKeepsHeads(score: Score, recs: seq<CompleteSlur>, k: nat, r: Score)
    requires k < |recs| && SlurAdded(score, recs, k) == Ok(r)
    ensures ScoreHeads(r) == ScoreHeads(score)
  {
    var s := EventOfNote(score, recs[k].startNote);
    var e := EventOfNote(score, recs[k].endNote);
    var targets := s.value.id != e.value.id && SharesEvents(score, recs, k, s.value.id, e.value.id);
    SlurredKeepsHeads(score, recs[k], s.value.id, e.value.id, targets);
  }

  /** The tuplet pass rewrites stored bar parts and leaves the bars' own fields. */
  lemma {:induction false} TupletsFoldedKeepHeads(score: Score, partId: string, ts: seq<PendingTuplet>)
    requires StoredIds(score, partId).Some?
    requires forall t :: t in ts ==> t.sequenceId in StoredIds(score, partId).value
    ensures TupletsFolded(score, partId, ts).Ok? ==> ScoreHeads(TupletsFolded(score, partId, ts).value) == ScoreHeads(score)
    decreases ts
  {
    if ts != [] && TupletFolded(score, partId, ts[0]).Ok? {
      var bp := StoredBarPart(score, partId).value;
      var items := TupletFold(VoiceItems(bp, ts[0].sequenceId), ts[0].eventIds, ts[0].ratio).value;
      StoredKeepsHeads(score, partId, WithVoiceItems(bp, ts[0].sequenceId, items));
      TupletsFoldedKeepHeads(TupletFolded(score, partId, ts[0]).value, partId, ts[1..]);
    }
  }

  /** The octave-shift pass only inserts markers and leaves the bars' own fields. */
  lemma {:induction false} ShiftsAddedKeepHeads(score: Score, shifts: seq<OpenShift>)
    ensures ShiftsAdded(score, shifts).Ok? ==> ScoreHeads(ShiftsAdded(score, shifts).value) == ScoreHeads(score)
    decreases shifts
  {
    if shifts != [] && ShiftAdded(score, shifts[0]).Ok? {
      var g := ShiftAddedInserts(score, shifts[0]);
      MapScoreKeepsHeads(score, g);
      ShiftsAddedKeepHeads(ShiftAdded(score, shifts[0]).value, shifts[1..]);
    }
  }

  /** The end of a measure part leaves the bars' own fields. */
  lemma MeasurePartFinishedKeepsHeads(score: Score, partId: string, slurs: seq<CompleteSlur>,
                                      tuplets: seq<PendingTuplet>, shifts: seq<OpenShift>)
    requires StoredIds(score, partId).Some?
    requires forall t :: t in tuplets ==> t.sequenceId in StoredIds(score, partId).value
    ensures MeasurePartFinished(score, partId, slurs, tuplets, shifts).Ok? ==>
      ScoreHeads(MeasurePartFinished(score, partId, slurs, tuplets, shifts).value) == ScoreHeads(score)
  {
    MeasurePartFinishedSteps(score, partId, slurs, tuplets, shifts);
    var s1 := SlursAdded(score, slurs, 0);
    if s1.Ok? {
      TupletsFoldedKeepHeads(s1.value, partId, tuplets);
      var s2 := TupletsFolded(s1.value, partId, tuplets);
      if s2.Ok? {
        ShiftsAddedKeepHeads(s2.value, shifts);
      }
    }
  }

  /** A `<notations>` child leaves the bars' own fields (a tie stop edits events in place). */
  lemma NotationKeepsHeads(note: NoteRef, pitch: Option<Pitch>, st: NotationState, c: Element)
    requires Notation(note, pitch, st, c).Ok?
    ensures ScoreHeads(Notation(note, pitch, st, c).value.book.score) == ScoreHeads(st.book.score)
  {
    if c.tag == "tied" && Attr(c, "type") == Some("stop") {
      var m := TieMatch(st.book.openTies, note.serial, pitch.value).value;
      if m.Some? {
        MapScoreKeepsHeads(st.book.score, EventUpdate(SetTieEnd(st.book.openTies[m.value].note.serial, note.number)));
      }
    }
  }

  lemma {:induction false} NotationsKeepHeads(note: NoteRef, pitch: Option<Pitch>, st: NotationState, cs: seq<Element>)
    requires NotationsOf(note, pitch, st, cs).Ok?
    ensures ScoreHeads(NotationsOf(note, pitch, st, cs).value.book.score) == ScoreHeads(st.book.score)
  {
    if cs != [] {
      var n := |cs| - 1;
      assert cs[..n + 1] == cs;
      FoldChildrenStep(Ok(st), cs, n, UntilError(NotationStep(note, pitch)));
      NotationsKeepHeads(note, pitch, st, cs[..n]);
      NotationKeepsHeads(note, pitch, NotationsOf(note, pitch, st, cs[..n]).value, cs[n]);
    }
  }

  /** The children of `<note>` leave the bars' own fields. */
  lemma {:induction false} NoteChildrenKeepHeads(note: NoteRef, st: NoteState, cs: seq<Element>)
    requires NoteChildrenOf(note, st, cs).Ok?
    ensures ScoreHeads(NoteChildrenOf(note, st, cs).value.book.score) == ScoreHeads(st.book.score)
  {
    if cs != [] {
      var n := |cs| - 1;
      NoteChildrenPrefix(note, st, cs);
      NoteChildrenKeepHeads(note, st, cs[..n]);
      var before := NoteChildrenOf(note, st, cs[..n]).value;
      if cs[n].tag == "notations" {
        var init := NotationState(before.book, NotationsOutcome([], false, before.bp));
        NotationsKeepHeads(note, before.fields.pitch, init, cs[n].children);
      }
    }
  }

  /** Tuplets pending in the sequences of a bar part are in the sequences stored once it is
      stored. */
  lemma StoredTupletsKnown(score: Score, partId: string, bp: BarPart, tuplets: seq<PendingTuplet>)
    requires |score.bars| > 0
    requires forall t :: t in tuplets ==> t.sequenceId in SequenceIds(bp)
    ensures StoredIds(WithStoredBarPart(score, partId, bp), partId) == Some(SequenceIds(bp))
    ensures forall t :: t in tuplets ==> t.sequenceId in StoredIds(WithStoredBarPart(score, partId, bp), partId).value
  {
  }

  /** The voices of the `<note>` children, in the order they first appear: the sequences
      `get_or_create_sequence` creates. */
  function MeasureVoices(cs: seq<Element>): seq<string> {
    if cs == [] then []
    else
      var c := cs[|cs| - 1];
      if c.tag == "note" then AddedVoice(MeasureVoices(cs[..|cs| - 1]), VoiceOf(c.children))
      else MeasureVoices(cs[..|cs| - 1])
  }

  /** The clefs of the `<attributes>` children, in document order. */
  function MeasureClefs(cs: seq<Element>): seq<Clef> {
    if cs == [] then []
    else
      var c := cs[|cs| - 1];
      MeasureClefs(cs[..|cs| - 1]) + (if c.tag == "attributes" then ClefsOf(c.children) else [])
  }

  /** What one child of `<part>` does to the layout of the bar part being read. */
  function LayoutStep(l: Layout, c: Element): Layout {
    if c.tag == "note" then l.(ids := AddedVoice(l.ids, VoiceOf(c.children)))
    else if c.tag == "attributes" then l.(clefs := l.clefs + ClefsOf(c.children))
    else l
  }

  /** The layout of the bar part a `<part>` element of a measure gives. */
  function PartElementLayout(el: Element): Layout {
    Layout(MeasureVoices(el.children), MeasureClefs(el.children))
  }

  /** The bar parts of one bar: each `<part>` element stored under the part id at its
      index; none when there are more `<part>` elements than parts. */
  function BarLayout(partEls: seq<Element>, ids: seq<string>): Option<seq<(string, Layout)>> {
    if partEls == [] then Some([])
    else
      var n := |partEls| - 1;
      match BarLayout(partEls[..n], ids)
      case None => None
      case Some(ls) => if n < |ids| then Some(SetLayout(ls, ids[n], PartElementLayout(partEls[n]))) else None
  }

  /** The bar of one `<measure>`. */
  function MeasureBar(measure: Element, ids: seq<string>): Option<seq<(string, Layout)>> {
    BarLayout(ChildrenWithTag(measure.children, "part"), ids)
  }

  /** A `<measure>` has no more `<part>` elements than there are parts. */
  predicate FitsParts(measure: Element, ids: seq<string>) {
    |ChildrenWithTag(measure.children, "part")| <= |ids|
  }

  /** The layout of the bars the `<measure>` elements give. */
  function MeasuresLayout(measures: seq<Element>, ids: seq<string>): Option<seq<seq<(string, Layout)>>> {
    if measures == [] then Some([])
    else
      var n := |measures| - 1;
      match MeasuresLayout(measures[..n], ids)
      case None => None
      case Some(ls) =>
        match MeasureBar(measures[n], ids)
        case None => None
        case Some(b) => Some(ls + [b])
  }

  function PartIds(parts: seq<Part>): (r: seq<string>)
    ensures |r| == |parts| && forall i :: 0 <= i < |parts| ==> r[i] == parts[i].partId
  {
    seq(|parts|, i requires 0 <= i < |parts| => parts[i].partId)
  }

  /** With distinct part ids, bar part `j` of a bar is the `j`-th `<part>` element under
      the `j`-th part id. */
  lemma {:induction false} BarLayoutByIndex(partEls: seq<Element>, ids: seq<string>)
    requires |partEls| <= |ids|
    requires forall i, j :: 0 <= i < j < |ids| ==> ids[i] != ids[j]
    ensures BarLayout(partEls, ids).Some?
    ensures |BarLayout(partEls, ids).value| == |partEls|
    ensures forall j :: 0 <= j < |partEls| ==> BarLayout(partEls, ids).value[j] == (ids[j], PartElementLayout(partEls[j]))
  {
    if partEls != [] {
      var n := |partEls| - 1;
      var prefix := partEls[..n];
      BarLayoutByIndex(prefix, ids);
      var ls := BarLayout(prefix, ids).value;
      assert forall i :: 0 <= i < |ls| ==> ls[i].0 != ids[n] by {
        forall i | 0 <= i < |ls| ensures ls[i].0 != ids[n] {
          assert ls[i] == (ids[i], PartElementLayout(prefix[i]));
        }
      }
      var r := SetLayout(ls, ids[n], PartElementLayout(partEls[n]));
      assert r == ls + [(ids[n], PartElementLayout(partEls[n]))];
      assert BarLayout(partEls, ids) == Some(r);
      forall j | 0 <= j < |partEls| ensures r[j] == (ids[j], PartElementLayout(partEls[j])) {
        if j < n {
          assert prefix[j] == partEls[j];
        }
      }
    }
  }

  /** Bar `i` of the layout is the bar of the `i`-th `<measure>`. */
  lemma {:induction false} MeasuresLayoutByIndex(measures: seq<Element>, ids: seq<string>)
    requires MeasuresLayout(measures, ids).Some?
    ensures |MeasuresLayout(measures, ids).value| == |measures|
    ensures forall i :: 0 <= i < |measures| ==>
      MeasureBar(measures[i], ids).Some? && MeasuresLayout(measures, ids).value[i] == MeasureBar(measures[i], ids).value
  {
    if measures != [] {
      var n := |measures| - 1;
      MeasuresLayoutByIndex(measures[..n], ids);
      forall i | 0 <= i < n ensures measures[..n][i] == measures[i] { }
    }
  }

  /** With distinct part ids, the measures give a layout exactly when none of them has more
      `<part>` elements than there are parts. */
  lemma MeasuresLayoutDefined(measures: seq<Element>, ids: seq<string>)
    requires forall i, j :: 0 <= i < j < |ids| ==> ids[i] != ids[j]
    ensures MeasuresLayout(measures, ids).Some? <==> forall i :: 0 <= i < |measures| ==> FitsParts(measures[i], ids)
  {
    MeasuresLayoutSome(measures, ids);
    forall i | 0 <= i < |measures| ensures MeasureBar(measures[i], ids).Some? <==> FitsParts(measures[i], ids) {
      MeasureBarDefined(measures[i], ids);
    }
  }

  /** The measures give a layout exactly when each of them gives a bar. */
  lemma {:induction false} MeasuresLayoutSome(measures: seq<Element>, ids: seq<string>)
    ensures MeasuresLayout(measures, ids).Some? <==> forall i :: 0 <= i < |measures| ==> MeasureBar(measures[i], ids).Some?
  {
    if measures != [] {
      var n := |measures| - 1;
      var prefix := measures[..n];
      MeasuresLayoutSome(prefix, ids);
      if MeasuresLayout(measures, ids).Some? {
        forall i | 0 <= i < |measures| ensures MeasureBar(measures[i], ids).Some? {
          if i < n {
            assert prefix[i] == measures[i];
          }
        }
      } else if MeasuresLayout(prefix, ids).None? {
        var i :| 0 <= i < n && MeasureBar(prefix[i], ids).None?;
        assert prefix[i] == measures[i];
      }
    }
  }

  /** With distinct part ids, a measure gives a bar exactly when it fits the parts. */
  lemma MeasureBarDefined(measure: Element, ids: seq<string>)
    requires forall i, j :: 0 <= i < j < |ids| ==> ids[i] != ids[j]
    ensures MeasureBar(measure, ids).Some? <==> FitsParts(measure, ids)
  {
    var partEls := ChildrenWithTag(measure.children, "part");
    if |partEls| <= |ids| {
      BarLayoutByIndex(partEls, ids);
    } else {
      TooManyPartsFails(partEls, ids);
    }
  }

  /** A new bar starts with no bar parts. */
  lemma NewBarLayout(score: Score)
    ensures ScoreLayout(score.(bars := score.bars + [NewBar()])) == ScoreLayout(score) + [[]]
  {
    var s := score.(bars := score.bars + [NewBar()]);
    forall i | 0 <= i < |score.bars| ensures ScoreLayout(s)[i] == ScoreLayout(score)[i] {
      assert s.bars[i] == score.bars[i];
    }
    assert ScoreLayout(s)[|score.bars|] == PartsLayout([]) == [];
  }

  /** Reading the `j`-th `<part>` of a measure into the last bar under the `j`-th part id
      gives the layout of the first `j + 1` `<part>` elements. */
  lemma BarLayoutStep(ls: seq<seq<(string, Layout)>>, before: seq<seq<(string, Layout)>>, partEls: seq<Element>,
                      j: nat, ids: seq<string>)
    requires j < |partEls| && j < |ids| && BarLayout(partEls[..j], ids).Some?
    requires before == ls + [BarLayout(partEls[..j], ids).value]
    ensures BarLayout(partEls[..j + 1], ids).Some?
    ensures WithPartLayout(before, ids[j], PartElementLayout(partEls[j])) == ls + [BarLayout(partEls[..j + 1], ids).value]
  {
    assert partEls[..j + 1][..j] == partEls[..j];
  }

  /** One more `<measure>`: its bar's layout follows those before. */
  lemma MeasuresLayoutStep(before: seq<seq<(string, Layout)>>, prev: seq<seq<(string, Layout)>>,
                           now: seq<seq<(string, Layout)>>, measures: seq<Element>, i: nat, ids: seq<string>)
    requires i < |measures| && MeasuresLayout(measures[..i], ids).Some?
    requires prev == before + MeasuresLayout(measures[..i], ids).value
    requires MeasureBar(measures[i], ids).Some?
    requires now == prev + [MeasureBar(measures[i], ids).value]
    ensures MeasuresLayout(measures[..i + 1], ids).Some?
    ensures now == before + MeasuresLayout(measures[..i + 1], ids).value
  {
    assert measures[..i + 1][..i] == measures[..i];
  }

  /** A measure with more `<part>` elements than parts gives no layout: the reader fails. */
  lemma {:induction false} TooManyPartsFails(partEls: seq<Element>, ids: seq<string>)
    requires |partEls| > |ids|
    ensures BarLayout(partEls, ids).None?
  {
    var n := |partEls| - 1;
    if n > |ids| {
      TooManyPartsFails(partEls[..n], ids);
    }
  }

  /** A bar edited in its own fields (a barline, a key, a time) keeps the layout. */
  lemma WithLastBarKeepsLayout(score: Score, bar: Bar)
    requires |score.bars| > 0 && bar.barParts == LastBar(score).barParts
    ensures ScoreLayout(WithLastBar(score, bar)) == ScoreLayout(score)
  {
  }

  /** What a successful `<attributes>` read leaves: the layout, the sequence ids and the
      heads of the bars before the last are those of the step on `c`. */
  lemma AttributesReadLayout(before: Score, c: Element, bp: BarPart)
    requires |before.bars| > 0 && c.tag == "attributes"
    ensures
      var st := AttributesOf(c.children, AttributesState([], LastBar(before).keysig, LastBar(before).timesig, None));
      var after := WithLastBar(before, LastBar(before).(keysig := st.keysig, timesig := st.timesig));
      var bp' := bp.(directions := bp.directions + st.clefs);
      && ScoreLayout(after) == ScoreLayout(before)
      && LayoutOf(bp') == LayoutStep(LayoutOf(bp), c)
      && SequenceIds(bp') == SequenceIds(bp)
      && LastHeadIs(before, after, HeadStep(Head(LastBar(before)), c))
  {
    var init := AttributesState([], LastBar(before).keysig, LastBar(before).timesig, None);
    var st := AttributesOf(c.children, init);
    var bar := LastBar(before).(keysig := st.keysig, timesig := st.timesig);
    ClefsInOrder(c.children, init);
    WithLastBarKeepsLayout(before, bar);
    WithLastBarLastHead(before, bar);
    HeadStepOnHead(LastBar(before), c);
  }

  /** One more child of `<part>`: a `<note>` may add its voice, `<attributes>` adds its
      clefs. */
  lemma MeasureLayoutStep(cs: seq<Element>, i: nat)
    requires i < |cs|
    ensures MeasureVoices(cs[..i + 1]) ==
      if cs[i].tag == "note" then AddedVoice(MeasureVoices(cs[..i]), VoiceOf(cs[i].children)) else MeasureVoices(cs[..i])
    ensures MeasureClefs(cs[..i + 1]) ==
      MeasureClefs(cs[..i]) + (if cs[i].tag == "attributes" then ClefsOf(cs[i].children) else [])
  {
    assert cs[..i + 1][..i] == cs[..i];
  }

  /** Tuplets pending in known sequences stay so when a note adds its voice and its
      closed tuplets, all in that voice. */
  lemma TupletsStayInSequences(before: seq<PendingTuplet>, after: seq<PendingTuplet>, voice: string,
                               ids: seq<string>, grown: seq<string>)
    requires forall t :: t in before ==> t.sequenceId in ids
    requires before <= after && forall k :: |before| <= k < |after| ==> after[k].sequenceId == voice
    requires ids <= grown && voice in grown
    ensures forall t :: t in after ==> t.sequenceId in grown
  {
    forall t | t in after
      ensures t.sequenceId in grown
    {
      var k :| 0 <= k < |after| && after[k] == t;
      if k < |before| {
        assert t == before[k];
        var j :| 0 <= j < |ids| && ids[j] == t.sequenceId;
        assert grown[j] == t.sequenceId;
      }
    }
  }

  // ---------------------------------------------------------------------------------------
  // Records passed between the note-parsing steps

  predicate IsTiedStop(c: Element) {
    c.tag == "tied" && Attr(c, "type") == Some("stop")
  }

  /** One more child: a tie stop among the children so far, step by step. */
  lemma TiedStopStep(cs: seq<Element>, i: nat)
    requires i < |cs|
    ensures HasTiedStop(cs[..i + 1]) <==> HasTiedStop(cs[..i]) || IsTiedStop(cs[i])
  {
    PrefixStep(cs, i);
    if HasTiedStop(cs[..i]) {
      var j :| 0 <= j < i && cs[..i][j].tag == "tied" && Attr(cs[..i][j], "type") == Some("stop");
      assert cs[..i + 1][j] == cs[..i][j];
    }
    if HasTiedStop(cs[..i + 1]) && !IsTiedStop(cs[i]) {
      var j :| 0 <= j < i + 1 && cs[..i + 1][j].tag == "tied" && Attr(cs[..i + 1][j], "type") == Some("stop");
      assert cs[..i][j] == cs[..i + 1][j];
    }
  }

  datatype NotationsOutcome = NotationsOutcome(closed: seq<string>, referenced: bool, bp: BarPart)

  /** The reader's bookkeeping that `<notations>` children change: open and complete slurs,
      open ties, open tuplets, and the score (a tie stop edits a note in place). */
  datatype Bookkeeping = Bookkeeping(openSlurs: map<int, OpenSlur>, completeSlurs: seq<CompleteSlur>,
                                     openTies: seq<OpenTie>, openTuplets: map<string, seq<nat>>, score: Score)

  /** What the loop of `parse_notations` has reached: the bookkeeping, and the tuplet numbers
      closed, whether the note was referenced and the bar part being built so far. */
  datatype NotationState = NotationState(book: Bookkeeping, out: NotationsOutcome)

  /** One child of `<notations>` for the note `note` whose pitch so far is `pitch`:
      `parse_slur` for `<slur>`; a tie start appends the note to the open ties; a tie stop
      needs the pitch, and the first matching open tie (`TieMatch`) is removed and its start
      note gets `tie_end_note` in the score and in the bar part; `parse_tuplet` for
      `<tuplet>`, a stop with a number being closed. */
  function Notation(note: NoteRef, pitch: Option<Pitch>, st: NotationState, c: Element): Result<NotationState> {
    var bk := st.book;
    if c.tag == "slur" then
      var n := SlurNumber(c);
      if Attr(c, "type") == Some("start") then
        Ok(st.(book := bk.(openSlurs := bk.openSlurs[n := OpenSlur(SlurSide(c), c.attrs, note)])))
      else if Attr(c, "type") == Some("stop") && n in bk.openSlurs then
        var o := bk.openSlurs[n];
        Ok(st.(book := bk.(openSlurs := bk.openSlurs - {n},
                           completeSlurs := bk.completeSlurs + [CompleteSlur(o.side, o.startAttrs, c.attrs, o.startNote, note)])))
      else Ok(st)
    else if c.tag == "tied" && Attr(c, "type") == Some("start") then
      Ok(st.(book := bk.(openTies := bk.openTies + [OpenTie(note, pitch)])))
    else if c.tag == "tied" && Attr(c, "type") == Some("stop") then
      if pitch.None? then Err(DataError("<tied> must come after <pitch> in <note>."))
      else
        match TieMatch(bk.openTies, note.serial, pitch.value)
        case Err(f) => Err(f)
        case Ok(None) => Ok(st)
        case Ok(Some(k)) =>
          var f := SetTieEnd(bk.openTies[k].note.serial, note.number);
          Ok(NotationState(bk.(openTies := WithoutIndex(bk.openTies, k), score := UpdateEvents(bk.score, f)),
                           st.out.(referenced := true, bp := MapBarPart(st.out.bp, EventUpdate(f)))))
    else if c.tag == "tuplet" then
      var n := TupletNumber(c);
      var tuplets := if Attr(c, "type") == Some("start") then bk.openTuplets[n := []] else bk.openTuplets;
      var closed := if Attr(c, "type") == Some("stop") && n != "" then [n] else [];
      Ok(NotationState(bk.(openTuplets := tuplets), st.out.(closed := st.out.closed + closed)))
    else Ok(st)
  }

  function NotationStep(note: NoteRef, pitch: Option<Pitch>): (NotationState, Element) -> Result<NotationState> {
    (st: NotationState, c: Element) => Notation(note, pitch, st, c)
  }

  /** `parse_notations`: the children in order from `st`, ending at the first error. */
  function NotationsOf(note: NoteRef, pitch: Option<Pitch>, st: NotationState, cs: seq<Element>): Result<NotationState> {
    FoldChildren(Ok(st), cs, UntilError(NotationStep(note, pitch)))
  }

  /** One more `<notations>` child: the fold takes one step of `Notation`, and an error
      there is where the whole loop ends. */
  lemma NotationsOfStep(note: NoteRef, pitch: Option<Pitch>, init: NotationState, cs: seq<Element>, i: nat,
                        st: NotationState)
    requires i < |cs| && NotationsOf(note, pitch, init, cs[..i]) == Ok(st)
    ensures NotationsOf(note, pitch, init, cs[..i + 1]) == Notation(note, pitch, st, cs[i])
    ensures Notation(note, pitch, st, cs[i]).Err? ==> NotationsOf(note, pitch, init, cs) == Notation(note, pitch, st, cs[i])
  {
    FoldChildrenStep(Ok(init), cs, i, UntilError(NotationStep(note, pitch)));
    if Notation(note, pitch, st, cs[i]).Err? {
      ErrorEndsFold(Ok(init), cs, i + 1, NotationStep(note, pitch));
    }
  }

  /** One more child adds that child's tuplet stop, if any. */
  lemma TupletStopsStep(cs: seq<Element>, i: nat)
    requires i < |cs|
    ensures TupletStops(cs[..i + 1]) == TupletStops(cs[..i]) + TupletStops([cs[i]])
  {
    PrefixStep(cs, i);
    assert [cs[i]][..0] == [];
  }

  /** A `<notations>` child keeps the layout of the score and of the bar part read so far
      (a tie stop edits events in place). */
  lemma NotationKeepsLayout(note: NoteRef, pitch: Option<Pitch>, st: NotationState, c: Element)
    requires Notation(note, pitch, st, c).Ok?
    ensures var r := Notation(note, pitch, st, c).value;
      ScoreLayout(r.book.score) == ScoreLayout(st.book.score) && LayoutOf(r.out.bp) == LayoutOf(st.out.bp)
  {
    if c.tag == "tied" && Attr(c, "type") == Some("stop") {
      var m := TieMatch(st.book.openTies, note.serial, pitch.value).value;
      if m.Some? {
        var f := SetTieEnd(st.book.openTies[m.value].note.serial, note.number);
        MapScoreKeepsLayout(st.book.score, EventUpdate(f));
        assert SequenceIds(MapBarPart(st.out.bp, EventUpdate(f))) == SequenceIds(st.out.bp);
      }
    }
  }

  lemma {:induction false} NotationsKeepLayout(note: NoteRef, pitch: Option<Pitch>, st: NotationState, cs: seq<Element>)
    requires NotationsOf(note, pitch, st, cs).Ok?
    ensures var r := NotationsOf(note, pitch, st, cs).value;
      ScoreLayout(r.book.score) == ScoreLayout(st.book.score) && LayoutOf(r.out.bp) == LayoutOf(st.out.bp)
  {
    if cs != [] {
      var n := |cs| - 1;
      assert cs[..n + 1] == cs;
      FoldChildrenStep(Ok(st), cs, n, UntilError(NotationStep(note, pitch)));
      NotationsKeepLayout(note, pitch, st, cs[..n]);
      NotationKeepsLayout(note, pitch, NotationsOf(note, pitch, st, cs[..n]).value, cs[n]);
    }
  }

  /** The locals of `parse_note` after its loop over the children. */
  datatype NoteFields = NoteFields(sequenceId: string, isChord: bool, isRest: bool,
                                   noteType: Option<Frac>, dots: nat, beamId: Option<int>,
                                   closed: seq<string>, timeMod: Option<TupletRatio>,
                                   pitch: Option<Pitch>, renderedAcc: Option<int>, referenced: bool)

  /** The locals of `parse_note` before its loop. */
  function NoFields(): NoteFields {
    NoteFields("", false, false, None, 0, None, [], None, None, None, false)
  }

  /** The branches of `parse_note`'s loop that only set its locals. */
  function NoteValue(f: NoteFields, c: Element): Result<NoteFields> {
    if c.tag == "accidental" then
      if c.text.None? || c.text.value !in ACCIDENTAL_TYPES_FOR_IMPORT then
        Err(DataError("Got unsupported <accidental> value " + c.text.GetOr("None") + "."))
      else Ok(f.(renderedAcc := Some(ACCIDENTAL_TYPES_FOR_IMPORT[c.text.value])))
    else if c.tag == "chord" then Ok(f.(isChord := true))
    else if c.tag == "dot" then Ok(f.(dots := f.dots + 1))
    else if c.tag == "duration" then
      match ParseDuration(c)
      case Err(e) => Err(e)
      case Ok(_) => Ok(f)
    else if c.tag == "pitch" then
      match PitchSpec(c)
      case Err(e) => Err(e)
      case Ok(p) => Ok(f.(pitch := Some(p)))
    else if c.tag == "rest" then Ok(f.(isRest := true))
    else if c.tag == "time-modification" then
      match TimeModificationSpec(c, f.noteType)
      case Err(e) => Err(e)
      case Ok(t) => Ok(f.(timeMod := Some(t)))
    else if c.tag == "type" then
      match ParseType(c)
      case Err(e) => Err(e)
      case Ok(t) => Ok(f.(noteType := Some(t)))
    else if c.tag == "voice" then Ok(f.(sequenceId := c.text.GetOr("")))
    else Ok(f)
  }

  /** What the loop of `parse_note` has reached: the bookkeeping, the beam counter, the
      locals and the bar part (a tie stop edits it). */
  datatype NoteState = NoteState(book: Bookkeeping, beamCounter: int, fields: NoteFields, bp: BarPart)

  /** One child of `<note>`: `parse_beam` for `<beam>` (a nonzero id becomes the beam id);
      `parse_notations` for `<notations>`, its closed numbers appended and its reference
      kept; otherwise `NoteValue`. */
  function NoteChild(note: NoteRef, st: NoteState, c: Element): Result<NoteState> {
    if c.tag == "beam" then
      var b := BeamStep(st.beamCounter, c);
      Ok(st.(beamCounter := b.1, fields := if b.0.Some? && b.0.value != 0 then st.fields.(beamId := b.0) else st.fields))
    else if c.tag == "notations" then
      match NotationsOf(note, st.fields.pitch, NotationState(st.book, NotationsOutcome([], false, st.bp)), c.children)
      case Err(e) => Err(e)
      case Ok(n) =>
        Ok(NoteState(n.book, st.beamCounter,
                     st.fields.(closed := st.fields.closed + n.out.closed, referenced := st.fields.referenced || n.out.referenced),
                     n.out.bp))
    else
      match NoteValue(st.fields, c)
      case Err(e) => Err(e)
      case Ok(f) => Ok(st.(fields := f))
  }

  function NoteChildStep(note: NoteRef): (NoteState, Element) -> Result<NoteState> {
    (st: NoteState, c: Element) => NoteChild(note, st, c)
  }

  /** The loop of `parse_note` over the children from `st`, ending at the first error. */
  function NoteChildrenOf(note: NoteRef, st: NoteState, cs: seq<Element>): Result<NoteState> {
    FoldChildren(Ok(st), cs, UntilError(NoteChildStep(note)))
  }

  /** A loop that ends well went through every child without an error. */
  lemma NoteChildrenPrefix(note: NoteRef, st: NoteState, cs: seq<Element>)
    requires cs != [] && NoteChildrenOf(note, st, cs).Ok?
    ensures NoteChildrenOf(note, st, cs[..|cs| - 1]).Ok?
    ensures NoteChild(note, NoteChildrenOf(note, st, cs[..|cs| - 1]).value, cs[|cs| - 1]) == NoteChildrenOf(note, st, cs)
  {
  }

  /** What one child of `<note>` does to the pitch, the rendered accidental and the
      reference. */
  lemma NoteChildEffect(note: NoteRef, st: NoteState, c: Element)
    requires NoteChild(note, st, c).Ok?
    ensures c.tag == "pitch" ==> PitchSpec(c).Ok?
    ensures NoteChild(note, st, c).value.fields.pitch ==
      if c.tag == "pitch" then Some(PitchSpec(c).value) else st.fields.pitch
    ensures c.tag == "accidental" ==> c.text.Some? && c.text.value in ACCIDENTAL_TYPES_FOR_IMPORT
    ensures NoteChild(note, st, c).value.fields.renderedAcc ==
      if c.tag == "accidental" then Some(ACCIDENTAL_TYPES_FOR_IMPORT[c.text.value]) else st.fields.renderedAcc
    ensures NoteChild(note, st, c).value.fields.referenced ==>
      st.fields.referenced || (c.tag == "notations" && HasTiedStop(c.children))
  {
    if c.tag == "notations" {
      var init := NotationState(st.book, NotationsOutcome([], false, st.bp));
      NotationsReferencedByTieStop(note, st.fields.pitch, init, c.children);
    }
  }

  /** The last step of the loop over the children, as `NoteChildEffect` sees it. */
  lemma NoteChildrenLastStep(note: NoteRef, st: NoteState, cs: seq<Element>)
    requires cs != [] && NoteChildrenOf(note, st, cs).Ok?
    ensures var c := cs[|cs| - 1];
      var before := NoteChildrenOf(note, st, cs[..|cs| - 1]);
      var after := NoteChildrenOf(note, st, cs).value.fields;
      && before.Ok?
      && (c.tag == "pitch" ==> PitchSpec(c).Ok?)
      && after.pitch == (if c.tag == "pitch" then Some(PitchSpec(c).value) else before.value.fields.pitch)
      && (c.tag == "accidental" ==> c.text.Some? && c.text.value in ACCIDENTAL_TYPES_FOR_IMPORT)
      && after.renderedAcc ==
           (if c.tag == "accidental" then Some(ACCIDENTAL_TYPES_FOR_IMPORT[c.text.value]) else before.value.fields.renderedAcc)
      && (after.referenced ==> before.value.fields.referenced || (c.tag == "notations" && HasTiedStop(c.children)))
  {
    NoteChildrenPrefix(note, st, cs);
    NoteChildEffect(note, NoteChildrenOf(note, st, cs[..|cs| - 1]).value, cs[|cs| - 1]);
  }

  /** A loop that ends well parsed every `<pitch>` it met. */
  lemma {:induction false} PitchesParse(note: NoteRef, st: NoteState, cs: seq<Element>)
    requires NoteChildrenOf(note, st, cs).Ok?
    ensures forall j :: 0 <= j < |cs| && cs[j].tag == "pitch" ==> PitchSpec(cs[j]).Ok?
  {
    if cs != [] {
      var n := |cs| - 1;
      NoteChildrenLastStep(note, st, cs);
      PitchesParse(note, st, cs[..n]);
      forall j | 0 <= j < |cs| && cs[j].tag == "pitch" ensures PitchSpec(cs[j]).Ok? {
        if j < n {
          assert cs[..n][j] == cs[j];
        }
      }
    }
  }

  /** The children of `<note>` keep the layout of the score and of the bar part. */
  lemma {:induction false} NoteChildrenKeepLayout(note: NoteRef, st: NoteState, cs: seq<Element>)
    requires NoteChildrenOf(note, st, cs).Ok?
    ensures var r := NoteChildrenOf(note, st, cs).value;
      ScoreLayout(r.book.score) == ScoreLayout(st.book.score) && LayoutOf(r.bp) == LayoutOf(st.bp)
  {
    if cs != [] {
      var n := |cs| - 1;
      NoteChildrenPrefix(note, st, cs);
      NoteChildrenKeepLayout(note, st, cs[..n]);
      var before := NoteChildrenOf(note, st, cs[..n]).value;
      if cs[n].tag == "notations" {
        var init := NotationState(before.book, NotationsOutcome([], false, before.bp));
        NotationsKeepLayout(note, before.fields.pitch, init, cs[n].children);
      }
    }
  }

  /** The pitch is the one of the last `<pitch>`. */
  lemma {:induction false} LastPitchWins(note: NoteRef, st: NoteState, cs: seq<Element>)
    requires NoteChildrenOf(note, st, cs).Ok?
    ensures var r := NoteChildrenOf(note, st, cs).value.fields.pitch;
      match LastWithTag(cs, "pitch")
      case None => r == st.fields.pitch
      case Some(p) => r.Some? && PitchSpec(p) == Ok(r.value)
  {
    if cs != [] {
      var n := |cs| - 1;
      NoteChildrenLastStep(note, st, cs);
      LastPitchWins(note, st, cs[..n]);
      assert cs[..n + 1] == cs;
      TagStep(cs, n, "pitch");
    }
  }

  /** A loop that ends well parsed every `<accidental>` it met. */
  lemma {:induction false} AccidentalsSupported(note: NoteRef, st: NoteState, cs: seq<Element>)
    requires NoteChildrenOf(note, st, cs).Ok?
    ensures forall j :: 0 <= j < |cs| && cs[j].tag == "accidental" ==> cs[j].text.Some? && cs[j].text.value in ACCIDENTAL_TYPES_FOR_IMPORT
  {
    if cs != [] {
      var n := |cs| - 1;
      NoteChildrenLastStep(note, st, cs);
      AccidentalsSupported(note, st, cs[..n]);
      forall j | 0 <= j < |cs| && cs[j].tag == "accidental"
        ensures cs[j].text.Some? && cs[j].text.value in ACCIDENTAL_TYPES_FOR_IMPORT
      {
        if j < n {
          assert cs[..n][j] == cs[j];
        }
      }
    }
  }

  /** The rendered accidental is the one of the last `<accidental>`. */
  lemma {:induction false} LastAccidentalWins(note: NoteRef, st: NoteState, cs: seq<Element>)
    requires NoteChildrenOf(note, st, cs).Ok?
    ensures var r := NoteChildrenOf(note, st, cs).value.fields.renderedAcc;
      match LastWithTag(cs, "accidental")
      case None => r == st.fields.renderedAcc
      case Some(a) => a.text.Some? && a.text.value in ACCIDENTAL_TYPES_FOR_IMPORT &&
                      r == Some(ACCIDENTAL_TYPES_FOR_IMPORT[a.text.value])
  {
    if cs != [] {
      var n := |cs| - 1;
      NoteChildrenLastStep(note, st, cs);
      LastAccidentalWins(note, st, cs[..n]);
      assert cs[..n + 1] == cs;
      TagStep(cs, n, "accidental");
    }
  }

  /** A note becomes referenced only through a tie stop among its `<notations>`. */
  lemma {:induction false} ReferencedByTieStop(note: NoteRef, st: NoteState, cs: seq<Element>)
    requires NoteChildrenOf(note, st, cs).Ok?
    ensures NoteChildrenOf(note, st, cs).value.fields.referenced ==>
      st.fields.referenced || exists j :: 0 <= j < |cs| && cs[j].tag == "notations" && HasTiedStop(cs[j].children)
  {
    if cs != [] {
      var n := |cs| - 1;
      NoteChildrenLastStep(note, st, cs);
      ReferencedByTieStop(note, st, cs[..n]);
      var before := NoteChildrenOf(note, st, cs[..n]).value;
      assert cs[..n + 1] == cs;
      if before.fields.referenced && !st.fields.referenced {
        var j :| 0 <= j < n && cs[..n][j].tag == "notations" && HasTiedStop(cs[..n][j].children);
        assert cs[j] == cs[..n][j];
      }
    }
  }

  /** Within `<notations>`, only a tie stop marks the note referenced. */
  lemma {:induction false} NotationsReferencedByTieStop(note: NoteRef, pitch: Option<Pitch>, st: NotationState, cs: seq<Element>)
    requires NotationsOf(note, pitch, st, cs).Ok?
    ensures NotationsOf(note, pitch, st, cs).value.out.referenced ==> st.out.referenced || HasTiedStop(cs)
  {
    if cs != [] {
      var n := |cs| - 1;
      assert cs[..n + 1] == cs;
      FoldChildrenStep(Ok(st), cs, n, UntilError(NotationStep(note, pitch)));
      NotationsReferencedByTieStop(note, pitch, st, cs[..n]);
      TiedStopStep(cs, n);
    }
  }

  /** The part of `parse_note`'s locals that is a function of the children alone. */
  datatype NoteShape = NoteShape(voice: string, chord: bool, rest: bool, noteType: Option<Frac>,
                                 dots: nat, closed: seq<string>, hasPitch: bool)

  function Shape(f: NoteFields): NoteShape {
    NoteShape(f.sequenceId, f.isChord, f.isRest, f.noteType, f.dots, f.closed, f.pitch.Some?)
  }

  /** The shape of a `<note>` with these children, field by field. */
  function ShapeOf(cs: seq<Element>): NoteShape {
    NoteShape(VoiceOf(cs), HasTag(cs, "chord"), HasTag(cs, "rest"), NoteTypeOf(cs), CountTag(cs, "dot"),
              ClosedNumbers(cs), HasTag(cs, "pitch"))
  }

  /** What one child of `<note>` does to the shape. */
  function ShapeStep(s: NoteShape, c: Element): NoteShape {
    if c.tag == "chord" then s.(chord := true)
    else if c.tag == "dot" then s.(dots := s.dots + 1)
    else if c.tag == "notations" then s.(closed := s.closed + TupletStops(c.children))
    else if c.tag == "pitch" then s.(hasPitch := true)
    else if c.tag == "rest" then s.(rest := true)
    else if c.tag == "type" then s.(noteType := if ParseType(c).Ok? then Some(ParseType(c).value) else None)
    else if c.tag == "voice" then s.(voice := c.text.GetOr(""))
    else s
  }

  /** The shape of the children is the steps taken over them one by one. */
  lemma ShapeOfStep(cs: seq<Element>, i: nat)
    requires i < |cs|
    ensures ShapeOf(cs[..i + 1]) == ShapeStep(ShapeOf(cs[..i]), cs[i])
  {
    PrefixStep(cs, i);
    TagStep(cs, i, "voice");
    TagStep(cs, i, "chord");
    TagStep(cs, i, "rest");
    TagStep(cs, i, "pitch");
    TagStep(cs, i, "type");
    TagStep(cs, i, "dot");
    var c := cs[i];
    var s := ShapeOf(cs[..i]);
    var t := ShapeOf(cs[..i + 1]);
    if c.tag == "chord" {
      assert t == s.(chord := true);
    } else if c.tag == "dot" {
      assert t == s.(dots := s.dots + 1);
    } else if c.tag == "notations" {
      assert t == s.(closed := s.closed + TupletStops(c.children));
    } else if c.tag == "pitch" {
      assert t == s.(hasPitch := true);
    } else if c.tag == "rest" {
      assert t == s.(rest := true);
    } else if c.tag == "type" {
      assert t == s.(noteType := if ParseType(c).Ok? then Some(ParseType(c).value) else None);
    } else if c.tag == "voice" {
      assert t == s.(voice := c.text.GetOr(""));
    } else {
      assert t == s;
    }
  }

  /** Where the note's event sits: sequence index and top-level item index. */
  datatype Placement = Placement(bp: BarPart, seqIdx: nat, itemIdx: nat)

  predicate ValidPlacement(p: Placement) {
    && p.seqIdx < |p.bp.sequences|
    && p.itemIdx < |p.bp.sequences[p.seqIdx].items|
    && p.bp.sequences[p.seqIdx].items[p.itemIdx].EventEntry?
  }

  function PlacedEvent(p: Placement): Event
    requires ValidPlacement(p)
  {
    p.bp.sequences[p.seqIdx].items[p.itemIdx].event
  }

  /** The placement of an event appended to the end of sequence `idx`. */
  function AppendedEvent(b: BarPart, idx: nat, e: Event): (p: Placement)
    requires idx < |b.sequences|
    ensures ValidPlacement(p) && PlacedEvent(p) == e
    ensures p.seqIdx == idx && p.itemIdx + 1 == |p.bp.sequences[idx].items|
    ensures p.bp.sequences[idx].sequenceId == b.sequences[idx].sequenceId
    ensures SequenceIds(p.bp) == SequenceIds(b)
  {
    var s := b.sequences[idx];
    var b' := b.(sequences := b.sequences[idx := s.(items := s.items + [EventEntry(e)])]);
    assert SequenceIds(b') == SequenceIds(b);
    Placement(b', idx, |s.items|)
  }

  /** Appending an event to the sequence `get_or_create_sequence` returned sets the voice's
      items to what they were plus that event. */
  lemma AppendedIsWithVoiceItems(bp: BarPart, voice: string, b: BarPart, idx: nat, e: Event)
    requires idx == VoiceIndex(bp.sequences, voice) && b == WithVoiceItems(bp, voice, VoiceItems(bp, voice))
    ensures idx < |b.sequences|
    ensures AppendedEvent(b, idx, e) ==
      Placement(WithVoiceItems(bp, voice, VoiceItems(bp, voice) + [EventEntry(e)]), idx, |VoiceItems(bp, voice)|)
  {
    if idx == |bp.sequences| {
      assert VoiceItems(bp, voice) + [EventEntry(e)] == [EventEntry(e)];
      assert (bp.sequences + [Sequence(voice, [])])[idx := Sequence(voice, [EventEntry(e)])]
          == bp.sequences + [Sequence(voice, [EventEntry(e)])];
    }
  }

  function WithPlacedEvent(p: Placement, e: Event): (bp: BarPart)
    requires ValidPlacement(p)
    ensures SequenceIds(bp) == SequenceIds(p.bp)
    ensures ValidPlacement(Placement(bp, p.seqIdx, p.itemIdx)) && PlacedEvent(Placement(bp, p.seqIdx, p.itemIdx)) == e
  {
    var s := p.bp.sequences[p.seqIdx];
    p.bp.(sequences := p.bp.sequences[p.seqIdx := s.(items := s.items[p.itemIdx := EventEntry(e)])])
  }

  /** The first sequence with id `voice` holds at top level the event `id`, whose last item
      is `item` and whose duration equals `d`. */
  ghost predicate Placed(bp: BarPart, voice: string, id: nat, item: EventItem, d: RhythmicDuration) {
    exists j, k ::
      && 0 <= j < |bp.sequences| && 0 <= k < |bp.sequences[j].items|
      && bp.sequences[j].sequenceId == voice
      && voice !in SequenceIds(bp)[..j]
      && bp.sequences[j].items[k].EventEntry?
      && var e := bp.sequences[j].items[k].event;
         e.id == id && |e.eventItems| > 0 && e.eventItems[|e.eventItems| - 1] == item && SameDuration(e.duration, d)
  }

  /** Appending an item to the event a placement names leaves that event where `Placed`
      looks for it, with the item last. */
  lemma PlacedAfterAppend(p: Placement, item: EventItem, voice: string, d: RhythmicDuration)
    requires ValidPlacement(p) && SameDuration(PlacedEvent(p).duration, d)
    requires p.bp.sequences[p.seqIdx].sequenceId == voice && voice !in SequenceIds(p.bp)[..p.seqIdx]
    ensures var e := PlacedEvent(p);
      Placed(WithPlacedEvent(p, e.(eventItems := e.eventItems + [item])), voice, e.id, item, d)
  {
    var e := PlacedEvent(p);
    var e' := e.(eventItems := e.eventItems + [item]);
    var b := WithPlacedEvent(p, e');
    assert SequenceIds(b)[..p.seqIdx] == SequenceIds(p.bp)[..p.seqIdx];
    assert b.sequences[p.seqIdx].items[p.itemIdx].event == e';
  }

  /** The bar part once `parse_note` has put `item` into its event, on values: a chord note
      joins the last top-level event of its voice (a different duration is a data error)
      and that event gains the item; any other note appends to its voice (created if need
      be) a new event numbered `newId` holding just the item. Nothing else changes. */
  function NotePut(b: BarPart, voice: string, isChord: bool, rd: RhythmicDuration, item: EventItem, newId: nat): Result<NoteOutcome> {
    var items := VoiceItems(b, voice);
    var last := if isChord then LastEventIndex(items) else None;
    if last.Some? then
      var e := items[last.value].event;
      if !SameDuration(e.duration, rd) then Err(DataError("Two separate <note>s within the same chord had different durations"))
      else Ok(NoteOutcome(WithVoiceItems(b, voice, items[last.value := EventEntry(e.(eventItems := e.eventItems + [item]))]), e.id))
    else Ok(NoteOutcome(WithVoiceItems(b, voice, items + [EventEntry(Event(newId, rd, [item], [], []))]), newId))
  }

  /** `VoiceIndex` looks only at the sequence ids. */
  lemma {:induction false} VoiceIndexOfSameIds(s: seq<Sequence>, t: seq<Sequence>, v: string)
    requires |s| == |t| && forall j :: 0 <= j < |s| ==> s[j].sequenceId == t[j].sequenceId
    ensures VoiceIndex(s, v) == VoiceIndex(t, v)
  {
    if s != [] && s[0].sequenceId != v {
      VoiceIndexOfSameIds(s[1..], t[1..], v);
    }
  }

  /** Appending a sequence leaves the index of an id already present. */
  lemma {:induction false} VoiceIndexOfAppend(s: seq<Sequence>, q: Sequence, v: string)
    ensures VoiceIndex(s, v) < |s| ==> VoiceIndex(s + [q], v) == VoiceIndex(s, v)
    ensures VoiceIndex(s, v) == |s| && q.sequenceId == v ==> VoiceIndex(s + [q], v) == |s|
    ensures VoiceIndex(s, v) == |s| && q.sequenceId != v ==> VoiceIndex(s + [q], v) == |s| + 1
  {
    if s != [] {
      assert (s + [q])[1..] == s[1..] + [q];
      if s[0].sequenceId != v {
        VoiceIndexOfAppend(s[1..], q, v);
      }
    }
  }

  /** Setting the items of one voice leaves every other voice's items alone. */
  lemma VoiceItemsOfWith(bp: BarPart, voice: string, xs: seq<Item>, v: string)
    ensures VoiceItems(WithVoiceItems(bp, voice, xs), v) == if v == voice then xs else VoiceItems(bp, v)
  {
    var s := bp.sequences;
    var i := VoiceIndex(s, voice);
    if i < |s| {
      VoiceIndexOfSameIds(s[i := Sequence(voice, xs)], s, v);
    } else {
      VoiceIndexOfAppend(s, Sequence(voice, xs), v);
    }
  }

  /** Swapping one event for another with its id keeps the ids of a walk. */
  lemma EventIdsOfSwap(a: seq<Event>, e: Event, e': Event, c: seq<Event>)
    requires e.id == e'.id
    ensures EventIds(a + [e] + c) == EventIds(a + [e'] + c)
    ensures EventIds(a + [e] + c)[|a|] == e.id
  {
    var x, y := a + [e] + c, a + [e'] + c;
    forall j | 0 <= j < |x|
      ensures EventIds(x)[j] == EventIds(y)[j]
    {
      if j != |a| {
        assert x[j] == y[j];
      }
    }
  }

  /** The walk of items with one top-level item singled out. */
  lemma IterEventsAround(items: seq<Item>, k: nat)
    requires k < |items|
    ensures IterEvents(items) == IterEvents(items[..k]) + ItemEvents(items[k]) + IterEvents(items[k + 1..])
  {
    assert items == items[..k] + items[k..];
    IterEventsAppend(items[..k], items[k..]);
    assert items[k..][0] == items[k] && items[k..][1..] == items[k + 1..];
  }

  /** Adding an item to one top-level event keeps the walk's event ids, that event's among
      them. */
  lemma JoinKeepsEventIds(items: seq<Item>, k: nat, item: EventItem)
    requires k < |items| && items[k].EventEntry?
    ensures var e := items[k].event;
      && EventIds(IterEvents(items[k := EventEntry(e.(eventItems := e.eventItems + [item]))])) == EventIds(IterEvents(items))
      && e.id in EventIds(IterEvents(items))
  {
    var e := items[k].event;
    var xs := items[k := EventEntry(e.(eventItems := e.eventItems + [item]))];
    IterEventsAround(items, k);
    IterEventsAround(xs, k);
    assert xs[..k] == items[..k] && xs[k + 1..] == items[k + 1..];
    EventIdsOfSwap(IterEvents(items[..k]), e, e.(eventItems := e.eventItems + [item]), IterEvents(items[k + 1..]));
  }

  /** What putting a note into its event does to the bar part: the directions and every
      other voice stay as they were; a chord note keeps the voice's event walk, and any
      other note adds one event, numbered `newId`, at its end. */
  lemma NotePutTouchesOnlyItsVoice(b: BarPart, voice: string, isChord: bool, rd: RhythmicDuration, item: EventItem, newId: nat)
    requires NotePut(b, voice, isChord, rd, item, newId).Ok?
    ensures var o := NotePut(b, voice, isChord, rd, item, newId).value;
      && o.bp.directions == b.directions
      && (forall v :: v != voice ==> VoiceItems(o.bp, v) == VoiceItems(b, v))
      && var before := EventIds(IterEvents(VoiceItems(b, voice)));
         var after := EventIds(IterEvents(VoiceItems(o.bp, voice)));
         && (isChord && LastEventIndex(VoiceItems(b, voice)).Some? ==> after == before && o.eventId in before)
         && (!isChord || LastEventIndex(VoiceItems(b, voice)).None? ==> after == before + [newId] && o.eventId == newId)
  {
    var items := VoiceItems(b, voice);
    var o := NotePut(b, voice, isChord, rd, item, newId).value;
    var xs;
    if isChord && LastEventIndex(items).Some? {
      var k := LastEventIndex(items).value;
      var e := items[k].event;
      xs := items[k := EventEntry(e.(eventItems := e.eventItems + [item]))];
      JoinKeepsEventIds(items, k, item);
    } else {
      var e := Event(newId, rd, [item], [], []);
      xs := items + [EventEntry(e)];
      IterEventsAppend(items, [EventEntry(e)]);
      assert IterEvents([EventEntry(e)]) == [e];
    }
    assert o.bp == WithVoiceItems(b, voice, xs);
    forall v
      ensures VoiceItems(o.bp, v) == if v == voice then xs else VoiceItems(b, v)
    {
      VoiceItemsOfWith(b, voice, xs, v);
    }
  }

  /** Adding an item to the chord's event, placed in the unchanged bar part. */
  lemma JoinedIsNotePut(b: BarPart, voice: string, k: nat, item: EventItem)
    requires VoiceIndex(b.sequences, voice) < |b.sequences|
    requires var items := VoiceItems(b, voice); k < |items| && items[k].EventEntry?
    ensures var p := Placement(b, VoiceIndex(b.sequences, voice), k);
      var items := VoiceItems(b, voice);
      var e := items[k].event;
      && ValidPlacement(p) && PlacedEvent(p) == e
      && WithPlacedEvent(p, e.(eventItems := e.eventItems + [item]))
         == WithVoiceItems(b, voice, items[k := EventEntry(e.(eventItems := e.eventItems + [item]))])
  {
  }

  /** Adding an item to the event just appended to the voice. */
  lemma AppendedIsNotePut(b: BarPart, voice: string, e: Event, item: EventItem)
    ensures var items := VoiceItems(b, voice);
      var p := Placement(WithVoiceItems(b, voice, items + [EventEntry(e)]), VoiceIndex(b.sequences, voice), |items|);
      && ValidPlacement(p) && PlacedEvent(p) == e
      && WithPlacedEvent(p, e.(eventItems := e.eventItems + [item]))
         == WithVoiceItems(b, voice, items + [EventEntry(e.(eventItems := e.eventItems + [item]))])
  {
    var items := VoiceItems(b, voice);
    var i := VoiceIndex(b.sequences, voice);
    var e' := e.(eventItems := e.eventItems + [item]);
    assert (items + [EventEntry(e)])[|items| := EventEntry(e')] == items + [EventEntry(e')];
    if i < |b.sequences| {
      assert b.sequences[i := Sequence(voice, items + [EventEntry(e)])][i := Sequence(voice, items + [EventEntry(e')])]
          == b.sequences[i := Sequence(voice, items + [EventEntry(e')])];
    } else {
      assert (b.sequences + [Sequence(voice, items + [EventEntry(e)])])[i := Sequence(voice, items + [EventEntry(e')])]
          == b.sequences + [Sequence(voice, items + [EventEntry(e')])];
    }
  }

  /** Where `PlaceEvent` puts a note's event, adding the item there is `NotePut`. */
  lemma PlacementIsNotePut(b: BarPart, voice: string, isChord: bool, rd: RhythmicDuration, item: EventItem,
                           newId: nat, p: Placement)
    requires var items := VoiceItems(b, voice);
      var last := LastEventIndex(items);
      && (isChord && last.Some? ==>
            SameDuration(items[last.value].event.duration, rd) && p == Placement(b, VoiceIndex(b.sequences, voice), last.value))
      && (!isChord || last.None? ==>
            p == Placement(WithVoiceItems(b, voice, items + [EventEntry(Event(newId, rd, [], [], []))]),
                           VoiceIndex(b.sequences, voice), |items|))
    ensures ValidPlacement(p)
    ensures var e := PlacedEvent(p);
      NotePut(b, voice, isChord, rd, item, newId) == Ok(NoteOutcome(WithPlacedEvent(p, e.(eventItems := e.eventItems + [item])), e.id))
  {
    var items := VoiceItems(b, voice);
    if isChord && LastEventIndex(items).Some? {
      JoinedIsNotePut(b, voice, LastEventIndex(items).value, item);
    } else {
      AppendedIsNotePut(b, voice, Event(newId, rd, [], [], []), item);
      assert Event(newId, rd, [], [], []).(eventItems := [] + [item]) == Event(newId, rd, [item], [], []);
    }
  }

  /** The event a `<chord/>` note of that voice joins: the id and duration of the last
      top-level event of the voice's sequence, if it has one. */
  function ChordTarget(bp: BarPart, voice: string): Option<(nat, RhythmicDuration)> {
    var items := VoiceItems(bp, voice);
    match LastEventIndex(items)
    case None => None
    case Some(k) => Some((items[k].event.id, items[k].event.duration))
  }

  /** Two bar parts in which a chord note of any voice would join the same event. */
  ghost predicate SameChordTargets(a: BarPart, b: BarPart) {
    forall v :: ChordTarget(a, v) == ChordTarget(b, v)
  }

  lemma {:induction false} MapItemsAt(items: seq<Item>, f: Event -> Event, k: nat)
    requires k < |items|
    ensures MapItems(items, f)[k] == MapItem(items[k], f)
  {
    if k > 0 {
      MapItemsAt(items[1..], f, k - 1);
    }
  }

  lemma VoiceIndexOfMap(seqs: seq<Sequence>, g: seq<Item> -> seq<Item>, v: string)
    ensures VoiceIndex(MapSequences(seqs, g), v) == VoiceIndex(seqs, v)
  {
  }

  /** An update that keeps the id and duration of every event keeps the last event of an
      item list, and its id and duration. */
  lemma LastEventOfMap(items: seq<Item>, f: Event -> Event)
    requires forall e :: f(e).id == e.id && f(e).duration == e.duration
    ensures var m := MapItems(items, f);
      && LastEventIndex(m) == LastEventIndex(items)
      && (LastEventIndex(items).Some? ==>
            m[LastEventIndex(items).value].event.id == items[LastEventIndex(items).value].event.id &&
            m[LastEventIndex(items).value].event.duration == items[LastEventIndex(items).value].event.duration)
  {
    var m := MapItems(items, f);
    forall k | 0 <= k < |items|
      ensures m[k].EventEntry? <==> items[k].EventEntry?
      ensures items[k].EventEntry? ==> m[k].event == f(items[k].event)
    {
      MapItemsAt(items, f, k);
    }
    LastEventIndexSameShape(m, items);
  }

  /** Two item lists with events at the same positions have the same last event index. */
  lemma {:induction false} LastEventIndexSameShape(a: seq<Item>, b: seq<Item>)
    requires |a| == |b|
    requires forall k :: 0 <= k < |a| ==> (a[k].EventEntry? <==> b[k].EventEntry?)
    ensures LastEventIndex(a) == LastEventIndex(b)
    decreases |a|
  {
    if a != [] && !a[|a| - 1].EventEntry? {
      LastEventIndexSameShape(a[..|a| - 1], b[..|b| - 1]);
    }
  }

  /** Setting a tie end leaves the event every chord note would join where it was. */
  lemma ChordTargetsAfterTie(b: BarPart, serial: nat, number: nat)
    ensures SameChordTargets(MapBarPart(b, EventUpdate(SetTieEnd(serial, number))), b)
  {
    var f := SetTieEnd(serial, number);
    var b' := MapBarPart(b, EventUpdate(f));
    forall v
      ensures ChordTarget(b', v) == ChordTarget(b, v)
    {
      VoiceIndexOfMap(b.sequences, EventUpdate(f), v);
      var i := VoiceIndex(b.sequences, v);
      if i < |b.sequences| {
        assert VoiceItems(b', v) == MapItems(VoiceItems(b, v), f);
        LastEventOfMap(VoiceItems(b, v), f);
      }
    }
  }

  datatype NoteOutcome = NoteOutcome(bp: BarPart, eventId: nat)

  /** How the two halves of placing a note combine, on values: what the loop over the
      children leaves (`f`, `b`) and what putting the note into its event gives (`put`,
      with the event and note counters `e0`/`n0` before and `e1`/`n1` after) amount to what
      the element itself says. */
  lemma PlacedFromHalves(el: Element, bp: BarPart, note: NoteRef, start: NoteState, f: NoteFields, b: BarPart,
                         put: Result<(NoteOutcome, EventItem)>, e0: nat, e1: nat, n0: nat, n1: nat)
    requires f.sequenceId == VoiceOf(el.children) && f.isChord == HasTag(el.children, "chord")
    requires f.isRest == HasTag(el.children, "rest") && f.noteType == NoteTypeOf(el.children)
    requires f.dots == CountTag(el.children, "dot") && (f.pitch.Some? <==> HasTag(el.children, "pitch"))
    requires SequenceIds(b) == SequenceIds(bp) && SameChordTargets(b, bp) && LayoutOf(b) == LayoutOf(bp)
    requires NoteChildrenOf(note, start, el.children).Ok?
    requires NoteChildrenOf(note, start, el.children).value.fields == f
    requires NoteChildrenOf(note, start, el.children).value.bp == b
    requires put.Ok? ==> NotePut(b, f.sequenceId, f.isChord, RhythmicDuration(f.noteType, f.dots), put.value.1, e0) == Ok(put.value.0)
    requires !f.isRest && f.pitch.None? ==> put.Err?
    requires put.Ok? ==> n1 == n0 + (if f.isRest then 0 else 1)
    requires var target := ChordTarget(b, f.sequenceId);
      f.isChord && target.Some? ==>
        && e1 == e0
        && (!SameDuration(target.value.1, RhythmicDuration(f.noteType, f.dots)) ==> put.Err?)
        && (put.Ok? ==> put.value.0.eventId == target.value.0)
    requires put.Ok? && !(f.isChord && ChordTarget(b, f.sequenceId).Some?) ==> e1 == e0 + 1 && put.value.0.eventId == e0
    requires put.Ok? ==>
      var o := put.value.0;
      && put.value.1 == NoteItemFor(f, note)
      && LayoutOf(o.bp) == Layout(AddedVoice(SequenceIds(b), f.sequenceId), b.directions)
      && Placed(o.bp, f.sequenceId, o.eventId, put.value.1, RhythmicDuration(f.noteType, f.dots))
    ensures !HasTag(el.children, "rest") && !HasTag(el.children, "pitch") ==> put.Err?
    ensures put.Ok? ==> n1 == n0 + (if HasTag(el.children, "rest") then 0 else 1)
    ensures var target := ChordTarget(bp, VoiceOf(el.children));
      HasTag(el.children, "chord") && target.Some? ==>
        && e1 == e0
        && (!SameDuration(target.value.1, NoteDuration(el.children)) ==> put.Err?)
        && (put.Ok? ==> put.value.0.eventId == target.value.0)
    ensures put.Ok? && !(HasTag(el.children, "chord") && ChordTarget(bp, VoiceOf(el.children)).Some?) ==>
      e1 == e0 + 1 && put.value.0.eventId == e0
    ensures put.Ok? ==> Key(put.value.1) == ItemKeyOf(el, note.serial)
    ensures put.Ok? ==> NoteRead(el, bp, note, start, put.value.0)
    ensures put.Ok? ==>
      NotePut(NoteChildrenOf(note, start, el.children).value.bp, VoiceOf(el.children), HasTag(el.children, "chord"),
              NoteDuration(el.children), put.value.1, e0) == Ok(put.value.0)
  {
    assert ChordTarget(b, f.sequenceId) == ChordTarget(bp, VoiceOf(el.children));
  }

  /** What reading a `<note>` from `start` into the bar part `bp` gives: the loop over the
      children ends well, the outcome's bar part holds the item those children make as the
      last item of the outcome's event (in the first sequence of the note's voice, with the
      note's duration), and its layout is `bp`'s with the voice added. */
  ghost predicate NoteRead(el: Element, bp: BarPart, note: NoteRef, start: NoteState, o: NoteOutcome) {
    var res := NoteChildrenOf(note, start, el.children);
    && res.Ok?
    && Placed(o.bp, VoiceOf(el.children), o.eventId, NoteItemFor(res.value.fields, note), NoteDuration(el.children))
    && LayoutOf(o.bp) == Layout(AddedVoice(SequenceIds(bp), VoiceOf(el.children)), bp.directions)
  }

  /** A note read and placed, with what is still to be recorded about it. */
  datatype PlacedNote = PlacedNote(fields: NoteFields, outcome: NoteOutcome, item: EventItem)

  /** The item `parse_note` appends for these locals: a rest, or a note with the pitch,
      the rendered accidental and the reference read from the children (a pitched note
      without a pitch is an error before any item is made). */
  function NoteItemFor(f: NoteFields, note: NoteRef): (r: EventItem)
    ensures Key(r) == if f.isRest || f.pitch.None? then RestKey(note.serial) else NoteKey(note.serial)
  {
    if f.isRest || f.pitch.None? then RestItem(note.serial)
    else NoteItem(Note(note.serial, note.number, f.pitch.value, f.renderedAcc, None, f.referenced))
  }

  /** The identity of the item a `<note>` element adds: a rest or a pitched note. */
  function ItemKeyOf(el: Element, serial: nat): ItemKey {
    if HasTag(el.children, "rest") then RestKey(serial) else NoteKey(serial)
  }

  /** The open octave shift and the completed ones. */
  datatype ShiftState = ShiftState(current: Option<OpenShift>, complete: seq<OpenShift>)

  /** `parse_octave_shift`: `up`/`down` opens a shift of the type the size and direction
      name, replacing the open one (an unknown pair is a data error); `stop` completes the
      open shift when it met a note and otherwise leaves everything alone. */
  function OctaveShiftRead(st: ShiftState, el: Element): (r: Result<ShiftState>)
    ensures r.Ok? ==> st.complete <= r.value.complete
    ensures r.Ok? ==> forall k :: |st.complete| <= k < |r.value.complete| ==> r.value.complete[k].members != []
    ensures r.Err? ==> r.failure.DataError?
  {
    var t := Attr(el, "type");
    if t == Some("up") || t == Some("down") then
      var key := (Attr(el, "size").GetOr("8"), t.value);
      if key !in OCTAVE_SHIFT_TYPES_FOR_IMPORT then Err(DataError("Unsupported <" + el.tag + "> type/size combination."))
      else Ok(st.(current := Some(OpenShift(OCTAVE_SHIFT_TYPES_FOR_IMPORT[key], []))))
    else if t == Some("stop") && st.current.Some? && st.current.value.members != [] then
      Ok(ShiftState(None, st.complete + [st.current.value]))
    else Ok(st)
  }

  /** `parse_direction_type`: every `<octave-shift>` child in order, up to the first error. */
  function DirectionTypeOf(st: ShiftState, el: Element): Result<ShiftState> {
    FoldChildren(Ok(st), el.children, UntilError(ShiftChild()))
  }

  function ShiftChild(): (ShiftState, Element) -> Result<ShiftState> {
    (st: ShiftState, c: Element) => if c.tag == "octave-shift" then OctaveShiftRead(st, c) else Ok(st)
  }

  /** `parse_direction`: every `<direction-type>` child in order, up to the first error. */
  function DirectionOf(st: ShiftState, el: Element): Result<ShiftState> {
    FoldChildren(Ok(st), el.children, UntilError(DirectionChild()))
  }

  function DirectionChild(): (ShiftState, Element) -> Result<ShiftState> {
    (st: ShiftState, c: Element) => if c.tag == "direction-type" then DirectionTypeOf(st, c) else Ok(st)
  }

  /** No `<octave-shift>` under any `<direction-type>` child. */
  predicate NoShiftsIn(cs: seq<Element>) {
    forall j :: 0 <= j < |cs| ==> DirectionTypeWithoutShift(cs[j])
  }

  predicate DirectionTypeWithoutShift(el: Element) {
    el.tag == "direction-type" ==> forall m :: 0 <= m < |el.children| ==> el.children[m].tag != "octave-shift"
  }

  /** The entries of `score.parts` a `<part-list>` yields, or the first failure. */
  function PartsOf(cs: seq<Element>): (r: Result<seq<Part>>)
    ensures r.Ok? <==> forall j :: 0 <= j < |cs| ==> "id" in cs[j].attrs
    ensures r.Ok? ==> |r.value| == |cs| && forall j :: 0 <= j < |cs| ==> r.value[j] == ParsePart(cs[j]).value
    ensures r.Err? ==> r.failure.DataError?
  {
    if cs == [] then Ok([])
    else
      var rest := PartsOf(cs[..|cs| - 1]);
      var last := ParsePart(cs[|cs| - 1]);
      if rest.Err? then rest
      else if last.Err? then Err(last.failure)
      else Ok(rest.value + [last.value])
  }

  /** The children of `<part-list>`, none without one. */
  function PartListEntries(xml: Element): seq<Element> {
    match FindChild(xml, "part-list")
    case None => []
    case Some(pl) => pl.children
  }

  /** `add_event_to_beam` behind `if beam_id:`: a note with a beam id joins that beam as
      its last event (a new id starts the beam in the note's voice); a note without one
      leaves the beams alone. */
  function BeamJoined(beams: map<int, BeamGroup>, beamId: Option<int>, voice: string, eventId: nat): map<int, BeamGroup>
  {
    match beamId
    case None => beams
    case Some(b) =>
      beams[b := if b in beams then beams[b].(eventIds := beams[b].eventIds + [eventId]) else BeamGroup(voice, [eventId])]
  }

  class MusicXmlReader {
    const xml: Element
    var score: Score
    var partDivisions: map<string, int>
    var openTies: seq<OpenTie>
    var currentBeams: map<int, BeamGroup>
    var openTuplets: map<string, seq<nat>>
    var currentTuplets: seq<PendingTuplet>
    var openSlurs: map<int, OpenSlur>
    var completeSlurs: seq<CompleteSlur>
    var nextEventId: nat
    var nextNoteId: nat
    var currentBeamId: int
    var currentOctaveShift: Option<OpenShift>
    var completeOctaveShifts: seq<OpenShift>
    /** How many `<note>` elements were read: the identity of the next one's Note object. */
    var noteSerial: nat

    /** The bookkeeping `<notations>` children change. */
    function Book(): Bookkeeping
      reads this`openSlurs, this`completeSlurs, this`openTies, this`openTuplets, this`score
    {
      Bookkeeping(openSlurs, completeSlurs, openTies, openTuplets, score)
    }

    /** Nothing waits for the end of a measure part. */
    predicate Idle()
      reads this`completeSlurs, this`currentBeams, this`currentTuplets, this`completeOctaveShifts
    {
      completeSlurs == [] && currentBeams == map[] && currentTuplets == [] && completeOctaveShifts == []
    }

    constructor(xml: Element)
      ensures this.xml == xml && score == Score([], []) && Idle()
      ensures partDivisions == map[] && openTies == [] && openTuplets == map[] && openSlurs == map[]
      ensures nextEventId == 1 && nextNoteId == 1 && currentBeamId == 0
      ensures currentOctaveShift.None? && noteSerial == 0
    {
      this.xml := xml;
      score := Score([], []);
      partDivisions := map[];
      openTies := [];
      currentBeams := map[];
      openTuplets := map[];
      currentTuplets := [];
      openSlurs := map[];
      completeSlurs := [];
      nextEventId := 1;
      nextNoteId := 1;
      currentBeamId := 0;
      currentOctaveShift := None;
      completeOctaveShifts := [];
      noteSerial := 0;
    }

    // -------------------------------------------------------------------------------------
    // read, parse_part_list, parse_measures

    /** `read`: the parts of the part list, then one bar per `<measure>`. */
    method Read() returns (r: Result<Score>)
      requires score == Score([], []) && Idle()
      modifies this
      ensures r.Ok? ==> PartsOf(PartListEntries(xml)).Ok? && r.value.parts == PartsOf(PartListEntries(xml)).value
      ensures r.Ok? ==> |r.value.bars| == |ChildrenWithTag(xml.children, "measure")|
      ensures r.Ok? ==>
        var m := MeasuresLayout(ChildrenWithTag(xml.children, "measure"), PartIds(r.value.parts));
        m.Some? && ScoreLayout(r.value) == m.value
      ensures r.Ok? ==> ScoreHeads(r.value) == MeasureHeads(ChildrenWithTag(xml.children, "measure"))
      ensures PartsOf(PartListEntries(xml)).Err? ==> r.Err? && r.failure.DataError?
    {
      var p := ParsePartList();
      if p.Err? {
        return Err(p.failure);
      }
      var m := ParseMeasures();
      if m.Err? {
        return Err(m.failure);
      }
      return Ok(score);
    }

    /** `parse_part_list`: every child of `<part-list>` becomes a part, in order. */
    method ParsePartList() returns (r: Result<()>)
      modifies this`score
      ensures r.Ok? <==> PartsOf(PartListEntries(xml)).Ok?
      ensures r.Err? ==> r.failure.DataError?
      ensures r.Ok? ==> score == old(score).(parts := old(score.parts) + PartsOf(PartListEntries(xml)).value)
    {
      var entries := PartListEntries(xml);
      var i := 0;
      while i < |entries|
        invariant 0 <= i <= |entries|
        invariant PartsOf(entries[..i]).Ok?
        invariant score == old(score).(parts := old(score.parts) + PartsOf(entries[..i]).value)
      {
        assert entries[..i + 1][..i] == entries[..i];
        var part := ParsePart(entries[i]);
        if part.Err? {
          assert !PartsOf(entries).Ok? by {
            assert "id" !in entries[i].attrs;
          }
          return Err(part.failure);
        }
        score := score.(parts := score.parts + [part.value]);
        i := i + 1;
      }
      assert entries[..i] == entries;
      return Ok(());
    }

    /** `parse_measures`: a new bar per `<measure>`, then each `<part>` of it read against
        the part at the same index of the part list. */
    method ParseMeasures() returns (r: Result<()>)
      requires Idle()
      modifies this
      ensures r.Ok? ==> Idle()
      ensures r.Ok? ==> score.parts == old(score.parts)
      ensures r.Ok? ==> |score.bars| == |old(score.bars)| + |ChildrenWithTag(xml.children, "measure")|
      ensures r.Ok? ==>
        var m := MeasuresLayout(ChildrenWithTag(xml.children, "measure"), PartIds(old(score.parts)));
        m.Some? && ScoreLayout(score) == ScoreLayout(old(score)) + m.value
      ensures r.Ok? ==> ScoreHeads(score) == ScoreHeads(old(score)) + MeasureHeads(ChildrenWithTag(xml.children, "measure"))
    {
      var measures := ChildrenWithTag(xml.children, "measure");
      ghost var ids := PartIds(score.parts);
      var i := 0;
      while i < |measures|
        invariant 0 <= i <= |measures|
        invariant Idle()
        invariant score.parts == old(score.parts) && |score.bars| == |old(score.bars)| + i
        invariant MeasuresLayout(measures[..i], ids).Some?
        invariant ScoreLayout(score) == ScoreLayout(old(score)) + MeasuresLayout(measures[..i], ids).value
        invariant ScoreHeads(score) == ScoreHeads(old(score)) + MeasureHeads(measures[..i])
      {
        ghost var prev, before := ScoreLayout(score), score;
        var res := ParseMeasure(measures[i]);
        if res.Err? {
          return res;
        }
        HeadsAppended(before, score, MeasureHead(measures[i]));
        MeasureHeadsStep(measures, i);
        MeasuresLayoutStep(ScoreLayout(old(score)), prev, ScoreLayout(score), measures, i, ids);
        i := i + 1;
      }
      assert measures[..i] == measures;
      return Ok(());
    }

    /** One `<measure>` of `parse_measures`: a new bar, then each `<part>` of the measure
        read against the part at the same index of the part list; a `<part>` past the last
        part is an `IndexError`. */
    method ParseMeasure(measure: Element) returns (r: Result<()>)
      requires Idle()
      modifies this
      ensures r.Ok? ==> Idle()
      ensures r.Ok? ==> score.parts == old(score.parts) && |score.bars| == |old(score.bars)| + 1
      ensures |ChildrenWithTag(measure.children, "part")| > |score.parts| ==> r.Err?
      ensures r.Ok? ==>
        var b := MeasureBar(measure, PartIds(old(score.parts)));
        b.Some? && ScoreLayout(score) == ScoreLayout(old(score)) + [b.value]
      ensures r.Ok? ==> forall i :: 0 <= i < |old(score.bars)| ==> Head(score.bars[i]) == Head(old(score.bars)[i])
      ensures r.Ok? ==> Head(LastBar(score)) == MeasureHead(measure)
    {
      ghost var done := ScoreLayout(score);
      ghost var bars := score.bars;
      NewBarLayout(score);
      score := score.(bars := score.bars + [NewBar()]);
      var partEls := ChildrenWithTag(measure.children, "part");
      r := ParseMeasureParts(partEls, done, bars);
    }

    /** The `parse_measures` loop over the `<part>`s of a measure, each read against the
        part at the same index; one past the last part is an `IndexError`. */
    method ParseMeasureParts(partEls: seq<Element>, ghost done: seq<seq<(string, Layout)>>, ghost bars: seq<Bar>)
      returns (r: Result<()>)
      requires Idle() && |score.bars| == |bars| + 1
      requires ScoreLayout(score) == done + [[]]
      requires forall i :: 0 <= i < |bars| ==> Head(score.bars[i]) == Head(bars[i])
      requires Head(LastBar(score)) == NewBar()
      modifies this
      ensures |partEls| > |score.parts| ==> r.Err?
      ensures r.Ok? ==> Idle() && score.parts == old(score.parts) && |score.bars| == |bars| + 1
      ensures r.Ok? ==> BarLayout(partEls, PartIds(score.parts)).Some?
      ensures r.Ok? ==> ScoreLayout(score) == done + [BarLayout(partEls, PartIds(score.parts)).value]
      ensures r.Ok? ==> forall i :: 0 <= i < |bars| ==> Head(score.bars[i]) == Head(bars[i])
      ensures r.Ok? ==> Head(LastBar(score)) == FoldChildren(NewBar(), partEls, PartHeadStep)
    {
      ghost var ids := PartIds(score.parts);
      assert partEls[..0] == [];
      var j := 0;
      while j < |partEls|
        invariant j <= |score.parts| && Idle() && score.parts == old(score.parts)
        invariant MeasureReadTo(partEls, j, done, bars, ids)
      {
        if j >= |score.parts| {
          return Err(InternalError("IndexError: list index out of range"));
        }
        var res := ParseMeasurePartAt(partEls, j, done, bars);
        if res.Err? {
          return res;
        }
        j := j + 1;
      }
      assert partEls[..j] == partEls;
      return Ok(());
    }

    /** After `j` of the measure's `<part>`s: the bars before the new one keep their own
        fields and layouts; the new bar has the layout and own fields of those `j` parts. */
    ghost predicate MeasureReadTo(partEls: seq<Element>, j: int, done: seq<seq<(string, Layout)>>,
                                  bars: seq<Bar>, ids: seq<string>)
      reads this`score
    {
      && 0 <= j <= |partEls| && |score.bars| == |bars| + 1
      && BarLayout(partEls[..j], ids).Some?
      && ScoreLayout(score) == done + [BarLayout(partEls[..j], ids).value]
      && (forall i :: 0 <= i < |bars| ==> Head(score.bars[i]) == Head(bars[i]))
      && Head(LastBar(score)) == FoldChildren(NewBar(), partEls[..j], PartHeadStep)
    }

    /** Step j of the `parse_measures` loop over the `<part>`s of a measure: part j's
        layout joins the new bar's, and its children's own fields go to the new bar. */
    method ParseMeasurePartAt(partEls: seq<Element>, j: nat, ghost done: seq<seq<(string, Layout)>>,
                              ghost bars: seq<Bar>) returns (r: Result<()>)
      requires Idle() && j < |partEls| && j < |score.parts|
      requires MeasureReadTo(partEls, j, done, bars, PartIds(score.parts))
      modifies this
      ensures r.Ok? ==> Idle() && score.parts == old(score.parts)
      ensures r.Ok? ==> MeasureReadTo(partEls, j + 1, done, bars, PartIds(score.parts))
    {
      ghost var ids := PartIds(score.parts);
      assert ids[j] == score.parts[j].partId;
      BarLayoutStep(done, ScoreLayout(score), partEls, j, ids);
      ghost var s0 := score;
      r := ParseMeasurePart(partEls[j], score.parts[j].partId);
      if r.Ok? {
        FoldChildrenStep(NewBar(), partEls, j, PartHeadStep);
        HeadsAfterPart(bars, s0, score, FoldChildren(NewBar(), partEls[..j + 1], PartHeadStep));
      }
    }

    // -------------------------------------------------------------------------------------
    // parse_measure_part

    /** `parse_measure_part`: read the children into a new bar part, store it in the last
        bar under the part id, then resolve what the measure part completed: slurs, beams,
        tuplets and octave shifts, in that order. Afterwards nothing is left pending. */
    method ParseMeasurePart(el: Element, partId: string) returns (r: Result<()>)
      requires |score.bars| > 0 && Idle()
      modifies this
      ensures r.Ok? ==> Idle()
      ensures r.Ok? ==> score.parts == old(score.parts) && |score.bars| == |old(score.bars)|
      ensures r.Ok? ==> StoredIds(score, partId).Some?
      ensures r.Ok? ==> nextEventId >= old(nextEventId) && nextNoteId >= old(nextNoteId)
      ensures r.Ok? ==> ScoreLayout(score) == WithPartLayout(ScoreLayout(old(score)), partId, PartElementLayout(el))
      ensures r.Ok? ==> LastHeadIs(old(score), score, PartHead(Head(LastBar(old(score))), el.children))
    {
      var stored := StoreMeasureChildren(el, partId);
      if stored.Err? {
        return Err(stored.failure);
      }
      ghost var s0, slurs, tuplets, shifts := score, completeSlurs, currentTuplets, completeOctaveShifts;
      ghost var events, notes := nextEventId, nextNoteId;
      r := FinishMeasurePart(partId);
      assert nextEventId == events && nextNoteId == notes;
      if r.Ok? {
        MeasurePartFinishedKeepsLayout(s0, partId, slurs, tuplets, shifts);
        MeasurePartFinishedKeepsHeads(s0, partId, slurs, tuplets, shifts);
        LastHeadThenSame(old(score), s0, score, PartHead(Head(LastBar(old(score))), el.children));
      }
    }

    /** The first half of `parse_measure_part`: read the children and store the bar part
        in the last bar, which sets that part's layout there. */
    method StoreMeasureChildren(el: Element, partId: string) returns (r: Result<()>)
      requires |score.bars| > 0 && Idle()
      modifies this`currentBeamId, this`openSlurs, this`completeSlurs, this`openTies, this`openTuplets,
               this`score, this`nextEventId, this`nextNoteId, this`currentBeams, this`currentTuplets,
               this`currentOctaveShift, this`noteSerial, this`partDivisions, this`completeOctaveShifts
      ensures score.parts == old(score.parts) && |score.bars| == |old(score.bars)|
      ensures nextEventId >= old(nextEventId) && nextNoteId >= old(nextNoteId)
      ensures r.Ok? ==> StoredIds(score, partId).Some?
      ensures r.Ok? ==> forall t :: t in currentTuplets ==> t.sequenceId in StoredIds(score, partId).value
      ensures r.Ok? ==> ScoreLayout(score) == WithPartLayout(ScoreLayout(old(score)), partId, PartElementLayout(el))
      ensures r.Ok? ==> LastHeadIs(old(score), score, PartHead(Head(LastBar(old(score))), el.children))
    {
      var read := ReadMeasureChildren(el, partId);
      if read.Err? {
        return Err(read.failure);
      }
      StoredTupletsKnown(score, partId, read.value, currentTuplets);
      StoredLayout(score, partId, read.value);
      StoredKeepsHeads(score, partId, read.value);
      LastHeadThenSame(old(score), score, WithStoredBarPart(score, partId, read.value), PartHead(Head(LastBar(old(score))), el.children));
      score := WithStoredBarPart(score, partId, read.value);
      r := Ok(());
    }

    /** The end of `parse_measure_part`: slurs, then beams, then tuplets, then octave
        shifts; on success nothing is left pending. */
    method FinishMeasurePart(partId: string) returns (r: Result<()>)
      requires StoredIds(score, partId).Some?
      requires forall t :: t in currentTuplets ==> t.sequenceId in StoredIds(score, partId).value
      modifies this`score, this`completeSlurs, this`currentBeams, this`currentTuplets, this`completeOctaveShifts
      ensures score.parts == old(score.parts) && |score.bars| == |old(score.bars)|
      ensures r.Ok? ==> Idle() && StoredIds(score, partId) == StoredIds(old(score), partId)
      ensures r.Ok? ==> MeasurePartFinished(old(score), partId, old(completeSlurs), old(currentTuplets),
                                            old(completeOctaveShifts)) == Ok(score)
      ensures r.Err? ==> MeasurePartFinished(old(score), partId, old(completeSlurs), old(currentTuplets),
                                             old(completeOctaveShifts)) == Err(r.failure)
    {
      ghost var s0, slurs, tuplets, shifts := score, completeSlurs, currentTuplets, completeOctaveShifts;
      MeasurePartFinishedSteps(s0, partId, slurs, tuplets, shifts);
      var s := ResolveSlurs(partId);
      if s.Err? {
        return Err(s.failure);
      }
      ghost var s1 := score;
      assert MeasurePartFinished(s0, partId, slurs, tuplets, shifts) == TupletsAndShiftsAdded(s1, partId, tuplets, shifts);
      currentBeams := map[];
      r := ResolveTupletsAndShifts(partId);
    }

    /** The tuplet pass, then the octave-shift pass; on success neither leaves anything
        pending. */
    method ResolveTupletsAndShifts(partId: string) returns (r: Result<()>)
      requires StoredIds(score, partId).Some?
      requires forall t :: t in currentTuplets ==> t.sequenceId in StoredIds(score, partId).value
      modifies this`score, this`currentTuplets, this`completeOctaveShifts
      ensures score.parts == old(score.parts) && |score.bars| == |old(score.bars)|
      ensures r.Ok? ==> currentTuplets == [] && completeOctaveShifts == []
      ensures r.Ok? ==> StoredIds(score, partId) == StoredIds(old(score), partId)
      ensures r.Ok? ==> TupletsAndShiftsAdded(old(score), partId, old(currentTuplets), old(completeOctaveShifts)) == Ok(score)
      ensures r.Err? ==> TupletsAndShiftsAdded(old(score), partId, old(currentTuplets), old(completeOctaveShifts)) == Err(r.failure)
    {
      var t := ResolveTuplets(partId);
      if t.Err? {
        return Err(t.failure);
      }
      var o := ResolveOctaveShifts(partId);
      if o.Err? {
        return Err(o.failure);
      }
      return Ok(());
    }

    /** The loop of `parse_measure_part` over the children of `<part>`. Every tuplet it
        leaves pending lies in a sequence of the bar part it builds. */
    method ReadMeasureChildren(el: Element, partId: string) returns (r: Result<BarPart>)
      requires |score.bars| > 0 && currentTuplets == []
      modifies this`currentBeamId, this`openSlurs, this`completeSlurs, this`openTies, this`openTuplets,
               this`score, this`nextEventId, this`nextNoteId, this`currentBeams, this`currentTuplets,
               this`currentOctaveShift, this`noteSerial, this`partDivisions, this`completeOctaveShifts
      ensures score.parts == old(score.parts) && |score.bars| == |old(score.bars)|
      ensures nextEventId >= old(nextEventId) && nextNoteId >= old(nextNoteId)
      ensures r.Ok? ==> forall t :: t in currentTuplets ==> t.sequenceId in SequenceIds(r.value)
      ensures r.Ok? ==> ScoreLayout(score) == ScoreLayout(old(score)) && LayoutOf(r.value) == PartElementLayout(el)
      ensures r.Ok? ==> LastHeadIs(old(score), score, PartHead(Head(LastBar(old(score))), el.children))
    {
      var bp := BarPart([], []);
      ghost var head := Head(LastBar(score));
      var i := 0;
      while i < |el.children|
        invariant 0 <= i <= |el.children|
        invariant score.parts == old(score.parts) && |score.bars| == |old(score.bars)|
        invariant nextEventId >= old(nextEventId) && nextNoteId >= old(nextNoteId)
        invariant forall t :: t in currentTuplets ==> t.sequenceId in SequenceIds(bp)
        invariant ScoreLayout(score) == ScoreLayout(old(score))
        invariant LayoutOf(bp) == Layout(MeasureVoices(el.children[..i]), MeasureClefs(el.children[..i]))
        invariant LastHeadIs(old(score), score, PartHead(head, el.children[..i]))
      {
        MeasureLayoutStep(el.children, i);
        FoldChildrenStep(head, el.children, i, HeadStep);
        var next := ReadMeasureChild(el.children[i], partId, bp);
        if next.Err? {
          return Err(next.failure);
        }
        bp := next.value;
        i := i + 1;
      }
      assert el.children[..i] == el.children;
      return Ok(bp);
    }

    /** One child of `<part>`: the branch of the `parse_measure_part` loop for its tag.
        Only `<attributes>` and `<note>` change the bar part; a `<barline>`, a key or a
        time edits the last bar itself (`HeadStep`), so the layout of the score stays. */
    method ReadMeasureChild(c: Element, partId: string, bp: BarPart) returns (r: Result<BarPart>)
      requires |score.bars| > 0
      requires forall t :: t in currentTuplets ==> t.sequenceId in SequenceIds(bp)
      modifies this`currentBeamId, this`openSlurs, this`completeSlurs, this`openTies, this`openTuplets,
               this`score, this`nextEventId, this`nextNoteId, this`currentBeams, this`currentTuplets,
               this`currentOctaveShift, this`noteSerial, this`partDivisions, this`completeOctaveShifts
      ensures score.parts == old(score.parts) && |score.bars| == |old(score.bars)|
      ensures nextEventId >= old(nextEventId) && nextNoteId >= old(nextNoteId)
      ensures r.Ok? ==> forall t :: t in currentTuplets ==> t.sequenceId in SequenceIds(r.value)
      ensures r.Ok? ==> ScoreLayout(score) == ScoreLayout(old(score)) && LayoutOf(r.value) == LayoutStep(LayoutOf(bp), c)
      ensures r.Ok? ==> LastHeadIs(old(score), score, HeadStep(Head(LastBar(old(score))), c))
      ensures c.tag == "barline" ==>
        var b := BarlineSpec(c, LastBar(old(score)));
        && (r.Ok? <==> b.Ok?)
        && (r.Ok? ==> score == WithLastBar(old(score), b.value) && r.value == bp)
      ensures c.tag == "attributes" ==> (r.Err? <==> AttributesFail(c))
      ensures c.tag == "attributes" && r.Err? ==> score == old(score) && exists i :: FirstAttributeError(c, i, r.failure)
      ensures c.tag == "attributes" && r.Ok? ==>
        var before := LastBar(old(score));
        var st := AttributesOf(c.children, AttributesState([], before.keysig, before.timesig, None));
        && score == WithLastBar(old(score), before.(keysig := st.keysig, timesig := st.timesig))
        && r.value == bp.(directions := bp.directions + st.clefs)
      ensures c.tag == "direction" ==>
        var res := DirectionOf(ShiftState(old(currentOctaveShift), old(completeOctaveShifts)), c);
        && (r.Err? <==> res.Err?)
        && (r.Ok? ==> res.value == ShiftState(currentOctaveShift, completeOctaveShifts) && score == old(score) && r.value == bp)
      ensures (c.tag == "backup" || c.tag == "forward") ==>
        (r.Err? <==> ParseForwardBackup(c).Err?) && score == old(score) && (r.Ok? ==> r.value == bp)
      ensures c.tag !in ["attributes", "backup", "forward", "barline", "direction", "note"] ==>
        r == Ok(bp) && score == old(score)
    {
      if c.tag == "attributes" {
        r := ReadAttributes(c, partId, bp);
      } else if c.tag == "backup" || c.tag == "forward" {
        var d := ParseForwardBackup(c);
        r := if d.Err? then Err(d.failure) else Ok(bp);
      } else if c.tag == "barline" {
        var b := ReadBarline(c);
        r := if b.Err? then Err(b.failure) else Ok(bp);
      } else if c.tag == "direction" {
        var d := ParseDirection(c);
        r := if d.Err? then Err(d.failure) else Ok(bp);
      } else if c.tag == "note" {
        r := ReadNote(c, bp);
      } else {
        r := Ok(bp);
      }
    }

    /** The `<attributes>` branch: `parse_measure_attributes`, which adds the clefs to the
        bar part and sets the last bar's key and time. */
    method ReadAttributes(c: Element, partId: string, bp: BarPart) returns (r: Result<BarPart>)
      requires |score.bars| > 0 && c.tag == "attributes"
      modifies this`score, this`partDivisions
      ensures score.parts == old(score.parts) && |score.bars| == |old(score.bars)|
      ensures r.Ok? ==> ScoreLayout(score) == ScoreLayout(old(score)) && LayoutOf(r.value) == LayoutStep(LayoutOf(bp), c)
      ensures r.Ok? ==> SequenceIds(r.value) == SequenceIds(bp)
      ensures r.Err? <==> AttributesFail(c)
      ensures r.Err? ==> score == old(score) && exists i :: FirstAttributeError(c, i, r.failure)
      ensures r.Ok? ==> LastHeadIs(old(score), score, HeadStep(Head(LastBar(old(score))), c))
      ensures r.Ok? ==>
        var before := LastBar(old(score));
        var st := AttributesOf(c.children, AttributesState([], before.keysig, before.timesig, None));
        && score == WithLastBar(old(score), before.(keysig := st.keysig, timesig := st.timesig))
        && r.value == bp.(directions := bp.directions + st.clefs)
    {
      ghost var before := score;
      r := ParseMeasureAttributes(c, partId, bp);
      if r.Ok? {
        AttributesReadLayout(before, c, bp);
      }
    }

    /** The `<barline>` branch: `parse_barline` on the last bar, which replaces it. */
    method ReadBarline(c: Element) returns (r: Result<()>)
      requires |score.bars| > 0 && c.tag == "barline"
      modifies this`score
      ensures score.parts == old(score.parts) && |score.bars| == |old(score.bars)|
      ensures r.Ok? <==> BarlineSpec(c, LastBar(old(score))).Ok?
      ensures r.Ok? ==> score == WithLastBar(old(score), BarlineSpec(c, LastBar(old(score))).value)
      ensures r.Err? ==> score == old(score)
      ensures r.Ok? ==> ScoreLayout(score) == ScoreLayout(old(score))
      ensures r.Ok? ==> LastHeadIs(old(score), score, HeadStep(Head(LastBar(old(score))), c))
    {
      var bar := ParseBarline(c, LastBar(score));
      if bar.Err? {
        return Err(bar.failure);
      }
      BarlineKeepsBarParts(LastBar(score), c.children);
      WithLastBarKeepsLayout(score, bar.value);
      WithLastBarLastHead(score, bar.value);
      HeadStepOnHead(LastBar(score), c);
      score := WithLastBar(score, bar.value);
      return Ok(());
    }

    /** The `<note>` branch: `parse_note`, whose bookkeeping may edit events in place but
        never the bars' own fields. */
    method ReadNote(c: Element, bp: BarPart) returns (r: Result<BarPart>)
      requires |score.bars| > 0 && c.tag == "note"
      requires forall t :: t in currentTuplets ==> t.sequenceId in SequenceIds(bp)
      modifies this`currentBeamId, this`openSlurs, this`completeSlurs, this`openTies, this`openTuplets,
               this`score, this`nextEventId, this`nextNoteId, this`currentBeams, this`currentTuplets,
               this`currentOctaveShift, this`noteSerial
      ensures score.parts == old(score.parts) && |score.bars| == |old(score.bars)|
      ensures nextEventId >= old(nextEventId) && nextNoteId >= old(nextNoteId)
      ensures r.Ok? ==> forall t :: t in currentTuplets ==> t.sequenceId in SequenceIds(r.value)
      ensures r.Ok? ==> ScoreLayout(score) == ScoreLayout(old(score)) && LayoutOf(r.value) == LayoutStep(LayoutOf(bp), c)
      ensures r.Ok? ==> LastHeadIs(old(score), score, Head(LastBar(old(score))))
      ensures r.Ok? ==>
        var note, start := NoteRef(old(noteSerial), old(nextNoteId)), NoteState(old(Book()), old(currentBeamId), NoFields(), bp);
        var ch := NoteChildrenOf(note, start, c.children);
        var target := ChordTarget(bp, VoiceOf(c.children));
        && ch.Ok?
        && NoteRead(c, bp, note, start, NoteOutcome(r.value, if HasTag(c.children, "chord") && target.Some? then target.value.0 else old(nextEventId)))
        && score == ch.value.book.score && openSlurs == ch.value.book.openSlurs && completeSlurs == ch.value.book.completeSlurs
    {
      ghost var tupletsBefore := currentTuplets;
      ghost var note, start := NoteRef(noteSerial, nextNoteId), NoteState(Book(), currentBeamId, NoFields(), bp);
      var n, _ := ParseNote(c, bp);
      if n.Err? {
        return Err(n.failure);
      }
      NoteChildrenKeepHeads(note, start, c.children);
      SameHeadsLastHead(start.book.score, score);
      TupletsStayInSequences(tupletsBefore, currentTuplets, VoiceOf(c.children), SequenceIds(bp), SequenceIds(n.value.bp));
      return Ok(n.value.bp);
    }

    /** The `add_slur` loop over the complete slurs, which are then cleared. */
    method ResolveSlurs(partId: string) returns (r: Result<()>)
      modifies this`score, this`completeSlurs
      ensures score.parts == old(score.parts) && |score.bars| == |old(score.bars)|
      ensures StoredIds(score, partId) == StoredIds(old(score), partId)
      ensures EventIds(ScoreEvents(score)) == EventIds(ScoreEvents(old(score)))
      ensures r.Ok? ==> completeSlurs == []
      ensures r.Ok? ==> SlursAdded(old(score), old(completeSlurs), 0) == Ok(score)
      ensures r.Err? ==> SlursAdded(old(score), old(completeSlurs), 0) == Err(r.failure)
    {
      var k := 0;
      while k < |completeSlurs|
        invariant 0 <= k <= |completeSlurs|
        invariant completeSlurs == old(completeSlurs)
        invariant SlursAdded(old(score), completeSlurs, 0) == SlursAdded(score, completeSlurs, k)
        invariant score.parts == old(score.parts) && |score.bars| == |old(score.bars)|
        invariant StoredIds(score, partId) == StoredIds(old(score), partId)
        invariant EventIds(ScoreEvents(score)) == EventIds(ScoreEvents(old(score)))
      {
        var s := SlurStep(k, partId);
        if s.Err? {
          return Err(s.failure);
        }
        k := k + 1;
      }
      completeSlurs := [];
      return Ok(());
    }

    /** One turn of the `add_slur` loop, seen as one step of the slur pass. */
    method SlurStep(k: nat, partId: string) returns (r: Result<()>)
      requires k < |completeSlurs|
      modifies this`score
      ensures r.Err? ==> SlursAdded(old(score), completeSlurs, k) == Err(r.failure)
      ensures r.Ok? ==> SlursAdded(old(score), completeSlurs, k) == SlursAdded(score, completeSlurs, k + 1)
      ensures score.parts == old(score.parts) && |score.bars| == |old(score.bars)|
      ensures StoredIds(score, partId) == StoredIds(old(score), partId)
      ensures EventIds(ScoreEvents(score)) == EventIds(ScoreEvents(old(score)))
    {
      r := AddSlur(k);
      SlursAddedStep(old(score), completeSlurs, k, if r.Ok? then Ok(score) else Err(r.failure));
    }

    /** The `set_tuplet` loop over the pending tuplets, which are then cleared. */
    method ResolveTuplets(partId: string) returns (r: Result<()>)
      requires StoredIds(score, partId).Some?
      requires forall t :: t in currentTuplets ==> t.sequenceId in StoredIds(score, partId).value
      modifies this`score, this`currentTuplets
      ensures score.parts == old(score.parts) && |score.bars| == |old(score.bars)|
      ensures r.Ok? ==> StoredIds(score, partId) == StoredIds(old(score), partId) && currentTuplets == []
      ensures r.Ok? ==> TupletsFolded(old(score), partId, old(currentTuplets)) == Ok(score)
      ensures r.Err? ==> TupletsFolded(old(score), partId, old(currentTuplets)) == Err(r.failure)
    {
      var m := 0;
      while m < |currentTuplets|
        invariant 0 <= m <= |currentTuplets|
        invariant currentTuplets == old(currentTuplets)
        invariant score.parts == old(score.parts) && |score.bars| == |old(score.bars)|
        invariant StoredIds(score, partId) == StoredIds(old(score), partId)
        invariant TupletsFolded(old(score), partId, currentTuplets) == TupletsFolded(score, partId, currentTuplets[m..])
      {
        var t := FoldPendingTuplet(partId, currentTuplets[m]);
        if t.Err? {
          return Err(t.failure);
        }
        m := m + 1;
      }
      currentTuplets := [];
      return Ok(());
    }

    /** The `add_octave_shift` loop over the complete octave shifts, which are then
        cleared. */
    method ResolveOctaveShifts(partId: string) returns (r: Result<()>)
      modifies this`score, this`completeOctaveShifts
      ensures score.parts == old(score.parts) && |score.bars| == |old(score.bars)|
      ensures StoredIds(score, partId) == StoredIds(old(score), partId)
      ensures ScoreEvents(score) == ScoreEvents(old(score))
      ensures r.Ok? ==> completeOctaveShifts == []
      ensures r.Ok? ==> ShiftsAdded(old(score), old(completeOctaveShifts)) == Ok(score)
      ensures r.Err? ==> ShiftsAdded(old(score), old(completeOctaveShifts)) == Err(r.failure)
    {
      var q := 0;
      while q < |completeOctaveShifts|
        invariant 0 <= q <= |completeOctaveShifts|
        invariant completeOctaveShifts == old(completeOctaveShifts)
        invariant ShiftsAdded(old(score), completeOctaveShifts) == ShiftsAdded(score, completeOctaveShifts[q..])
        invariant score.parts == old(score.parts) && |score.bars| == |old(score.bars)|
        invariant StoredIds(score, partId) == StoredIds(old(score), partId)
        invariant ScoreEvents(score) == ScoreEvents(old(score))
      {
        var o := AddOctaveShift(completeOctaveShifts[q]);
        if o.Err? {
          return Err(o.failure);
        }
        q := q + 1;
      }
      completeOctaveShifts := [];
      return Ok(());
    }

    /** `parse_measure_attributes`: clefs become directions of the bar part; divisions go
        to the part; key and time go to the bar, the last of each winning (`LastKeyWins`,
        `LastTimeWins`, `LastDivisionsWin`). */
    method ParseMeasureAttributes(el: Element, partId: string, bp: BarPart) returns (r: Result<BarPart>)
      requires |score.bars| > 0
      modifies this`partDivisions, this`score
      ensures r.Err? ==> score == old(score) && partDivisions == old(partDivisions)
      ensures r.Err? <==> AttributesFail(el)
      ensures r.Err? ==> exists i :: FirstAttributeError(el, i, r.failure)
      ensures r.Ok? ==>
        var before := LastBar(old(score));
        var st := AttributesOf(el.children, AttributesState([], before.keysig, before.timesig, None));
        && r.value == bp.(directions := bp.directions + st.clefs)
        && score == WithLastBar(old(score), before.(keysig := st.keysig, timesig := st.timesig))
        && partDivisions == (if st.divisions.Some? then old(partDivisions)[partId := st.divisions.value] else old(partDivisions))
    {
      var bar := LastBar(score);
      var parsed := ParseAttributesChildren(el, AttributesState([], bar.keysig, bar.timesig, None));
      if parsed.Err? {
        return Err(parsed.failure);
      }
      var st := parsed.value;
      if st.divisions.Some? {
        partDivisions := partDivisions[partId := st.divisions.value];
      }
      score := WithLastBar(score, bar.(keysig := st.keysig, timesig := st.timesig));
      return Ok(bp.(directions := bp.directions + st.clefs));
    }

    /** The loop of `parse_measure_attributes` over the children of `<attributes>`: the
        first child that does not parse ends it with that child's error. */
    method ParseAttributesChildren(el: Element, init: AttributesState) returns (r: Result<AttributesState>)
      ensures r.Ok? ==> r.value == AttributesOf(el.children, init)
      ensures r.Err? <==> AttributesFail(el)
      ensures r.Err? ==> exists i :: FirstAttributeError(el, i, r.failure)
    {
      var st := init;
      var i := 0;
      while i < |el.children|
        invariant 0 <= i <= |el.children|
        invariant st == AttributesOf(el.children[..i], init)
        invariant !AnyAttributeFails(el.children[..i])
      {
        FoldChildrenStep(init, el.children, i, AttributesStep);
        var next := ParseAttributesChild(el.children[i], st);
        assert el.children[..i + 1][..i] == el.children[..i];
        if next.Err? {
          assert FirstAttributeError(el, i, next.failure);
          AnyAttributeFailsAt(el.children);
          return Err(next.failure);
        }
        st := next.value;
        i := i + 1;
      }
      assert el.children[..i] == el.children;
      return Ok(st);
    }

    /** One child of `<attributes>`: the branch of the loop for its tag. */
    method ParseAttributesChild(c: Element, st: AttributesState) returns (r: Result<AttributesState>)
      ensures r.Ok? ==> r.value == AttributesStep(st, c)
      ensures r.Err? <==> AttributeFails(c)
      ensures r.Err? ==> r.failure == AttributeError(c)
    {
      if c.tag == "clef" {
        var clef := ParseClef(c);
        return Ok(st.(clefs := st.clefs + [clef]));
      } else if c.tag == "divisions" {
        var d := ParseDivisions(c);
        if d.Err? {
          return Err(d.failure);
        }
        return Ok(st.(divisions := Some(d.value)));
      } else if c.tag == "key" {
        var k := ParseKey(c);
        if k.Err? {
          return Err(k.failure);
        }
        return Ok(st.(keysig := Some(k.value)));
      } else if c.tag == "time" {
        var t := ParseTime(c);
        if t.Err? {
          return Err(t.failure);
        }
        return Ok(st.(timesig := Some(t.value)));
      }
      return Ok(st);
    }

    // -------------------------------------------------------------------------------------
    // parse_direction, parse_direction_type, parse_octave_shift

    /** `parse_direction`: only `<octave-shift>` inside `<direction-type>` is read. Only
        shifts that met at least one note are ever completed. */
    method ParseDirection(el: Element) returns (r: Result<()>)
      modifies this`currentOctaveShift, this`completeOctaveShifts
      ensures r.Err? ==> r.failure.DataError?
      ensures old(completeOctaveShifts) <= completeOctaveShifts
      ensures forall k :: |old(completeOctaveShifts)| <= k < |completeOctaveShifts| ==> completeOctaveShifts[k].members != []
      ensures NoShiftsIn(el.children) ==>
        r.Ok? && currentOctaveShift == old(currentOctaveShift) && completeOctaveShifts == old(completeOctaveShifts)
      ensures var res := DirectionOf(ShiftState(old(currentOctaveShift), old(completeOctaveShifts)), el);
        && (r.Err? <==> res.Err?)
        && (r.Ok? ==> res.value == ShiftState(currentOctaveShift, completeOctaveShifts))
    {
      ghost var init := ShiftState(currentOctaveShift, completeOctaveShifts);
      var i := 0;
      while i < |el.children|
        invariant 0 <= i <= |el.children|
        invariant old(completeOctaveShifts) <= completeOctaveShifts
        invariant forall k :: |old(completeOctaveShifts)| <= k < |completeOctaveShifts| ==> completeOctaveShifts[k].members != []
        invariant NoShiftsIn(el.children[..i]) ==>
          currentOctaveShift == old(currentOctaveShift) && completeOctaveShifts == old(completeOctaveShifts)
        invariant FoldChildren(Ok(init), el.children[..i], UntilError(DirectionChild())) ==
          Ok(ShiftState(currentOctaveShift, completeOctaveShifts))
      {
        PrefixStep(el.children, i);
        FoldChildrenStep(Ok(init), el.children, i, UntilError(DirectionChild()));
        if el.children[i].tag == "direction-type" {
          var d := ParseDirectionType(el.children[i]);
          if d.Err? {
            ErrorEndsFold(Ok(init), el.children, i + 1, DirectionChild());
            return d;
          }
        }
        assert NoShiftsIn(el.children[..i + 1]) ==> NoShiftsIn(el.children[..i]) by {
          if NoShiftsIn(el.children[..i + 1]) {
            forall j | 0 <= j < i ensures DirectionTypeWithoutShift(el.children[..i][j]) {
              assert el.children[..i][j] == el.children[..i + 1][j];
            }
          }
        }
        i := i + 1;
      }
      assert el.children[..i] == el.children;
      return Ok(());
    }

    /** `parse_direction_type`. */
    method ParseDirectionType(el: Element) returns (r: Result<()>)
      modifies this`currentOctaveShift, this`completeOctaveShifts
      ensures r.Err? ==> r.failure.DataError?
      ensures old(completeOctaveShifts) <= completeOctaveShifts
      ensures forall k :: |old(completeOctaveShifts)| <= k < |completeOctaveShifts| ==> completeOctaveShifts[k].members != []
      ensures (forall m :: 0 <= m < |el.children| ==> el.children[m].tag != "octave-shift") ==>
        r.Ok? && currentOctaveShift == old(currentOctaveShift) && completeOctaveShifts == old(completeOctaveShifts)
      ensures var res := DirectionTypeOf(ShiftState(old(currentOctaveShift), old(completeOctaveShifts)), el);
        && (r.Err? <==> res.Err?)
        && (r.Ok? ==> res.value == ShiftState(currentOctaveShift, completeOctaveShifts))
    {
      ghost var init := ShiftState(currentOctaveShift, completeOctaveShifts);
      var i := 0;
      while i < |el.children|
        invariant 0 <= i <= |el.children|
        invariant old(completeOctaveShifts) <= completeOctaveShifts
        invariant forall k :: |old(completeOctaveShifts)| <= k < |completeOctaveShifts| ==> completeOctaveShifts[k].members != []
        invariant (forall m :: 0 <= m < i ==> el.children[m].tag != "octave-shift") ==>
          currentOctaveShift == old(currentOctaveShift) && completeOctaveShifts == old(completeOctaveShifts)
        invariant FoldChildren(Ok(init), el.children[..i], UntilError(ShiftChild())) ==
          Ok(ShiftState(currentOctaveShift, completeOctaveShifts))
      {
        FoldChildrenStep(Ok(init), el.children, i, UntilError(ShiftChild()));
        if el.children[i].tag == "octave-shift" {
          var o := ParseOctaveShift(el.children[i]);
          if o.Err? {
            ErrorEndsFold(Ok(init), el.children, i + 1, ShiftChild());
            return o;
          }
        }
        i := i + 1;
      }
      assert el.children[..i] == el.children;
      return Ok(());
    }

    /** `parse_octave_shift`: `up`/`down` opens a shift of the type the size and direction
        name (an unknown pair is a data error); `stop` completes the open shift when it met
        a note and otherwise leaves everything alone. */
    method ParseOctaveShift(el: Element) returns (r: Result<()>)
      modifies this`currentOctaveShift, this`completeOctaveShifts
      ensures r.Err? ==> currentOctaveShift == old(currentOctaveShift) && completeOctaveShifts == old(completeOctaveShifts)
      ensures var t := Attr(el, "type");
        var key := (Attr(el, "size").GetOr("8"), t.GetOr(""));
        && (t == Some("up") || t == Some("down") ==>
              && (r.Ok? <==> key in OCTAVE_SHIFT_TYPES_FOR_IMPORT)
              && (r.Err? ==> r.failure.DataError?)
              && (r.Ok? ==> currentOctaveShift == Some(OpenShift(OCTAVE_SHIFT_TYPES_FOR_IMPORT[key], []))
                            && completeOctaveShifts == old(completeOctaveShifts)))
        && (t == Some("stop") && old(currentOctaveShift).Some? && old(currentOctaveShift).value.members != [] ==>
              r.Ok? && currentOctaveShift.None? && completeOctaveShifts == old(completeOctaveShifts) + [old(currentOctaveShift).value])
        && (t != Some("up") && t != Some("down") &&
            !(t == Some("stop") && old(currentOctaveShift).Some? && old(currentOctaveShift).value.members != []) ==>
              r.Ok? && currentOctaveShift == old(currentOctaveShift) && completeOctaveShifts == old(completeOctaveShifts))
      ensures var res := OctaveShiftRead(ShiftState(old(currentOctaveShift), old(completeOctaveShifts)), el);
        && (r.Err? <==> res.Err?)
        && (r.Ok? ==> res.value == ShiftState(currentOctaveShift, completeOctaveShifts))
    {
      var t := Attr(el, "type");
      if t == Some("up") || t == Some("down") {
        var key := (Attr(el, "size").GetOr("8"), t.value);
        if key !in OCTAVE_SHIFT_TYPES_FOR_IMPORT {
          return Err(DataError("Unsupported <" + el.tag + "> type/size combination."));
        }
        currentOctaveShift := Some(OpenShift(OCTAVE_SHIFT_TYPES_FOR_IMPORT[key], []));
      } else if t == Some("stop") {
        if currentOctaveShift.Some? && currentOctaveShift.value.members != [] {
          completeOctaveShifts := completeOctaveShifts + [currentOctaveShift.value];
          currentOctaveShift := None;
        }
      }
      return Ok(());
    }

    // -------------------------------------------------------------------------------------
    // parse_note

    /** `parse_note`: read the children, find or create the event in the voice's sequence
        (a `<chord>` joins the last event, whose duration must match), append the rest or the
        pitched note to it, and record the event with the open beam, tuplets and octave
        shift. */
    method ParseNote(el: Element, bp: BarPart) returns (r: Result<NoteOutcome>, ghost children: Result<NoteState>)
      modifies this`currentBeamId, this`openSlurs, this`completeSlurs, this`openTies, this`openTuplets,
               this`score, this`nextEventId, this`nextNoteId, this`currentBeams, this`currentTuplets,
               this`currentOctaveShift, this`noteSerial
      ensures children == NoteChildrenOf(NoteRef(old(noteSerial), old(nextNoteId)),
                                         NoteState(old(Book()), old(currentBeamId), NoFields(), bp), el.children)
      ensures score.parts == old(score.parts) && |score.bars| == |old(score.bars)|
      ensures nextEventId >= old(nextEventId) && nextNoteId >= old(nextNoteId)
      ensures !HasTag(el.children, "rest") && !HasTag(el.children, "pitch") ==> r.Err?
      ensures r.Ok? ==> noteSerial == old(noteSerial) + 1
      ensures r.Ok? ==> nextNoteId == old(nextNoteId) + (if HasTag(el.children, "rest") then 0 else 1)
      ensures var target := ChordTarget(bp, VoiceOf(el.children));
        HasTag(el.children, "chord") && target.Some? ==>
          && nextEventId == old(nextEventId)
          && (!SameDuration(target.value.1, NoteDuration(el.children)) ==> r.Err?)
          && (r.Ok? ==> r.value.eventId == target.value.0)
      ensures r.Ok? && !(HasTag(el.children, "chord") && ChordTarget(bp, VoiceOf(el.children)).Some?) ==>
        nextEventId == old(nextEventId) + 1 && r.value.eventId == old(nextEventId)
      ensures r.Ok? ==> SequenceIds(bp) <= SequenceIds(r.value.bp) && VoiceOf(el.children) in SequenceIds(r.value.bp)
      ensures r.Ok? ==> NoteRead(el, bp, NoteRef(old(noteSerial), old(nextNoteId)),
                                 NoteState(old(Book()), old(currentBeamId), NoFields(), bp), r.value)
      ensures r.Ok? ==>
        children.Ok? && NotePut(children.value.bp, VoiceOf(el.children), HasTag(el.children, "chord"), NoteDuration(el.children),
                                NoteItemFor(children.value.fields, NoteRef(old(noteSerial), old(nextNoteId))), old(nextEventId)) == Ok(r.value)
      ensures r.Ok? ==> ScoreLayout(score) == ScoreLayout(old(score))
      ensures r.Ok? ==> TupletsRecorded(openTuplets, old(currentTuplets), currentTuplets, VoiceOf(el.children), r.value.eventId)
      ensures r.Ok? ==> ShiftRecorded(old(currentOctaveShift), currentOctaveShift, ItemKeyOf(el, old(noteSerial)))
      ensures r.Ok? ==>
        && openSlurs == children.value.book.openSlurs && completeSlurs == children.value.book.completeSlurs
        && score == children.value.book.score
        && openTies == WithFinalPitch(children.value.book.openTies, old(noteSerial), children.value.fields.pitch)
        && currentBeamId == children.value.beamCounter
        && currentBeams == BeamJoined(old(currentBeams), children.value.fields.beamId, VoiceOf(el.children), r.value.eventId)
      ensures r.Ok? ==>
        && (forall n :: n in openTuplets <==> n in children.value.book.openTuplets && n !in children.value.fields.closed)
        && (forall n :: n in openTuplets ==> openTuplets[n] == children.value.book.openTuplets[n] + [r.value.eventId])
      ensures r.Ok? && children.value.book.openTuplets == map[] ==> currentTuplets == old(currentTuplets)
      ensures r.Ok? && children.value.book.openTuplets != map[] ==>
        var closed, added := children.value.fields.closed, currentTuplets[|old(currentTuplets)|..];
        && |added| == |closed|
        && forall k :: 0 <= k < |closed| ==>
             closed[k] in children.value.book.openTuplets &&
             added[k] == PendingTuplet(VoiceOf(el.children), children.value.book.openTuplets[closed[k]] + [r.value.eventId],
                                       children.value.fields.timeMod)
    {
      var placed;
      placed, children := PlaceNote(el, bp);
      if placed.Err? {
        r := Err(placed.failure);
        return;
      }
      AddedVoiceGrows(SequenceIds(bp), VoiceOf(el.children));
      ghost var s1, events, notes := score, nextEventId, nextNoteId;
      var t := RecordNote(placed.value.fields, placed.value.outcome.eventId, Key(placed.value.item));
      if t.Err? {
        r := Err(t.failure);
        return;
      }
      assert score == s1 && nextEventId == events && nextNoteId == notes;
      r := Ok(placed.value.outcome);
    }

    /** The first half of `parse_note`: read the children, then put the rest or the
        pitched note into its event. */
    method PlaceNote(el: Element, bp: BarPart) returns (r: Result<PlacedNote>, ghost children: Result<NoteState>)
      modifies this`currentBeamId, this`openSlurs, this`completeSlurs, this`openTies, this`openTuplets,
               this`score, this`nextEventId, this`nextNoteId
      ensures children == NoteChildrenOf(NoteRef(noteSerial, old(nextNoteId)), NoteState(old(Book()), old(currentBeamId), NoFields(), bp), el.children)
      ensures score.parts == old(score.parts) && |score.bars| == |old(score.bars)|
      ensures nextEventId >= old(nextEventId) && nextNoteId >= old(nextNoteId)
      ensures !HasTag(el.children, "rest") && !HasTag(el.children, "pitch") ==> r.Err?
      ensures r.Ok? ==> nextNoteId == old(nextNoteId) + (if HasTag(el.children, "rest") then 0 else 1)
      ensures var target := ChordTarget(bp, VoiceOf(el.children));
        HasTag(el.children, "chord") && target.Some? ==>
          && nextEventId == old(nextEventId)
          && (!SameDuration(target.value.1, NoteDuration(el.children)) ==> r.Err?)
          && (r.Ok? ==> r.value.outcome.eventId == target.value.0)
      ensures r.Ok? && !(HasTag(el.children, "chord") && ChordTarget(bp, VoiceOf(el.children)).Some?) ==>
        nextEventId == old(nextEventId) + 1 && r.value.outcome.eventId == old(nextEventId)
      ensures r.Ok? ==> r.value.fields.sequenceId == VoiceOf(el.children) && Key(r.value.item) == ItemKeyOf(el, noteSerial)
      ensures r.Ok? ==>
        && children.Ok? && r.value.fields == children.value.fields
        && r.value.item == NoteItemFor(children.value.fields, NoteRef(noteSerial, old(nextNoteId)))
        && NotePut(children.value.bp, VoiceOf(el.children), HasTag(el.children, "chord"), NoteDuration(el.children),
                   r.value.item, old(nextEventId)) == Ok(r.value.outcome)
      ensures r.Ok? ==> NoteRead(el, bp, NoteRef(noteSerial, old(nextNoteId)),
                                 NoteState(old(Book()), old(currentBeamId), NoFields(), bp), r.value.outcome)
      ensures r.Ok? ==> ScoreLayout(score) == ScoreLayout(old(score))
      ensures r.Ok? ==> Book() == children.value.book && currentBeamId == children.value.beamCounter
      ensures currentBeams == old(currentBeams) && currentTuplets == old(currentTuplets)
      ensures currentOctaveShift == old(currentOctaveShift) && noteSerial == old(noteSerial)
    {
      var note := NoteRef(noteSerial, nextNoteId);
      ghost var init := NoteState(Book(), currentBeamId, NoFields(), bp);
      ghost var e0, n0 := nextEventId, nextNoteId;
      children := NoteChildrenOf(note, init, el.children);
      var parsed := ParseNoteChildren(el, note, bp);
      if parsed.Err? {
        r := Err(parsed.failure);
        return;
      }
      NoteChildrenKeepLayout(note, init, el.children);
      var fields := parsed.value.0;
      var put := PutNote(fields, note, parsed.value.1);
      PlacedFromHalves(el, bp, note, init, fields, parsed.value.1, put, e0, nextEventId, n0, nextNoteId);
      if put.Err? {
        r := Err(put.failure);
        return;
      }
      r := Ok(PlacedNote(fields, put.value.0, put.value.1));
    }

    /** The second half of `parse_note`'s placing: find or create the event (a chord note
        joins the voice's last event, which must have the same duration), then append the
        rest or the pitched note to it. */
    method PutNote(fields: NoteFields, note: NoteRef, b: BarPart) returns (r: Result<(NoteOutcome, EventItem)>)
      requires note.number == nextNoteId
      modifies this`nextEventId, this`nextNoteId
      ensures nextEventId >= old(nextEventId) && nextNoteId >= old(nextNoteId)
      ensures !fields.isRest && fields.pitch.None? ==> r.Err?
      ensures r.Ok? ==> nextNoteId == old(nextNoteId) + (if fields.isRest then 0 else 1)
      ensures var target := ChordTarget(b, fields.sequenceId);
        fields.isChord && target.Some? ==>
          && nextEventId == old(nextEventId)
          && (!SameDuration(target.value.1, RhythmicDuration(fields.noteType, fields.dots)) ==> r.Err?)
          && (r.Ok? ==> r.value.0.eventId == target.value.0)
      ensures r.Ok? && !(fields.isChord && ChordTarget(b, fields.sequenceId).Some?) ==>
        nextEventId == old(nextEventId) + 1 && r.value.0.eventId == old(nextEventId)
      ensures r.Ok? ==>
        var o := r.value.0;
        && r.value.1 == NoteItemFor(fields, note)
        && LayoutOf(o.bp) == Layout(AddedVoice(SequenceIds(b), fields.sequenceId), b.directions)
        && SequenceIds(b) <= SequenceIds(o.bp) && fields.sequenceId in SequenceIds(o.bp)
        && Placed(o.bp, fields.sequenceId, o.eventId, r.value.1, RhythmicDuration(fields.noteType, fields.dots))
      ensures r.Ok? ==>
        NotePut(b, fields.sequenceId, fields.isChord, RhythmicDuration(fields.noteType, fields.dots), r.value.1, old(nextEventId))
          == Ok(r.value.0)
    {
      var rd := RhythmicDuration(fields.noteType, fields.dots);
      ghost var id0 := nextEventId;
      var placed := PlaceEvent(b, fields.sequenceId, fields.isChord, rd);
      if placed.Err? {
        return Err(placed.failure);
      }
      var item := NewItem(fields, note);
      if item.Err? {
        return Err(item.failure);
      }
      PlacementIsNotePut(b, fields.sequenceId, fields.isChord, rd, item.value, id0, placed.value);
      var event := PlacedEvent(placed.value);
      var b' := WithPlacedEvent(placed.value, event.(eventItems := event.eventItems + [item.value]));
      PlacedAfterAppend(placed.value, item.value, fields.sequenceId, rd);
      return Ok((NoteOutcome(b', event.id), item.value));
    }

    /** The item `parse_note` adds: a rest, or a note with the pitch read (numbered with
        the next note id); a pitched note without `<pitch>` is a data error. */
    method NewItem(fields: NoteFields, note: NoteRef) returns (r: Result<EventItem>)
      requires note.number == nextNoteId
      modifies this`nextNoteId
      ensures fields.isRest ==> r == Ok(RestItem(note.serial)) && nextNoteId == old(nextNoteId)
      ensures !fields.isRest && fields.pitch.None? ==> r.Err? && r.failure.DataError?
      ensures !fields.isRest && fields.pitch.Some? ==>
        && r == Ok(NoteItem(Note(note.serial, note.number, fields.pitch.value, fields.renderedAcc, None, fields.referenced)))
        && nextNoteId == old(nextNoteId) + 1
      ensures r.Err? ==> nextNoteId == old(nextNoteId)
    {
      if fields.isRest {
        return Ok(RestItem(note.serial));
      }
      if fields.pitch.None? {
        return Err(DataError("Got a <note> without <pitch>."));
      }
      nextNoteId := nextNoteId + 1;
      return Ok(NoteItem(Note(note.serial, note.number, fields.pitch.value, fields.renderedAcc, None, fields.referenced)));
    }

    /** After a note is recorded, every open tuplet ends with its event, and the tuplets
        that closed on it were appended, each in the note's voice and ending with its
        event. */
    ghost predicate TupletsRecorded(open: map<string, seq<nat>>, before: seq<PendingTuplet>,
                                    after: seq<PendingTuplet>, voice: string, eventId: nat)
    {
      && (forall n :: n in open ==> open[n] != [] && open[n][|open[n]| - 1] == eventId)
      && before <= after
      && (forall k :: |before| <= k < |after| ==>
            && after[k].sequenceId == voice
            && after[k].eventIds != []
            && after[k].eventIds[|after[k].eventIds| - 1] == eventId)
    }

    /** An open octave shift gains the note's item as its last member. */
    ghost predicate ShiftRecorded(before: Option<OpenShift>, after: Option<OpenShift>, key: ItemKey)
    {
      after == match before
        case None => None
        case Some(s) => Some(s.(members := s.members + [key]))
    }

    /** What `parse_note` records once the item is in its event: the beam, the open and
        closed tuplets, the open octave shift, the pitch of the note's own open ties, and
        the note count. */
    method RecordNote(fields: NoteFields, eventId: nat, key: ItemKey) returns (r: Result<()>)
      modifies this`currentBeams, this`openTuplets, this`currentTuplets, this`currentOctaveShift,
               this`openTies, this`noteSerial
      ensures openSlurs == old(openSlurs) && completeSlurs == old(completeSlurs) && score == old(score)
      ensures currentBeamId == old(currentBeamId) && nextEventId == old(nextEventId) && nextNoteId == old(nextNoteId)
      ensures r.Ok? ==> noteSerial == old(noteSerial) + 1
      ensures r.Ok? ==> TupletsRecorded(openTuplets, old(currentTuplets), currentTuplets, fields.sequenceId, eventId)
      ensures r.Ok? ==> ShiftRecorded(old(currentOctaveShift), currentOctaveShift, key)
      ensures r.Ok? ==> openTies == WithFinalPitch(old(openTies), old(noteSerial), fields.pitch)
      ensures currentBeams == BeamJoined(old(currentBeams), fields.beamId, fields.sequenceId, eventId)
      ensures r.Ok? ==> forall n :: n in openTuplets <==> n in old(openTuplets) && n !in fields.closed
      ensures r.Ok? ==> forall n :: n in openTuplets ==> openTuplets[n] == old(openTuplets)[n] + [eventId]
      ensures r.Ok? && old(openTuplets) == map[] ==> currentTuplets == old(currentTuplets)
      ensures r.Ok? && old(openTuplets) != map[] ==>
        var added := currentTuplets[|old(currentTuplets)|..];
        && |added| == |fields.closed|
        && forall k :: 0 <= k < |fields.closed| ==>
             fields.closed[k] in old(openTuplets) &&
             added[k] == PendingTuplet(fields.sequenceId, old(openTuplets)[fields.closed[k]] + [eventId], fields.timeMod)
    {
      RecordBeam(fields.beamId, fields.sequenceId, eventId);
      var t := RecordTuplets(fields.closed, fields.sequenceId, eventId, fields.timeMod);
      if t.Err? {
        return Err(t.failure);
      }
      if currentOctaveShift.Some? {
        var s := currentOctaveShift.value;
        currentOctaveShift := Some(s.(members := s.members + [key]));
      }
      openTies := WithFinalPitch(openTies, noteSerial, fields.pitch);
      noteSerial := noteSerial + 1;
      return Ok(());
    }

    /** The tuplet half of recording a note: every open tuplet gains the event, and the
        ones the note closes become pending, in the order they are closed. */
    method RecordTuplets(closed: seq<string>, voice: string, eventId: nat, ratio: Option<TupletRatio>)
      returns (r: Result<()>)
      modifies this`openTuplets, this`currentTuplets
      ensures r.Ok? ==> TupletsRecorded(openTuplets, old(currentTuplets), currentTuplets, voice, eventId)
      ensures r.Ok? ==> forall n :: n in openTuplets <==> n in old(openTuplets) && n !in closed
      ensures r.Ok? ==> forall n :: n in openTuplets ==> openTuplets[n] == old(openTuplets)[n] + [eventId]
      ensures r.Ok? && old(openTuplets) == map[] ==> currentTuplets == old(currentTuplets)
      ensures r.Ok? && old(openTuplets) != map[] ==>
        var added := currentTuplets[|old(currentTuplets)|..];
        && |added| == |closed|
        && forall k :: 0 <= k < |closed| ==>
             closed[k] in old(openTuplets) &&
             added[k] == PendingTuplet(voice, old(openTuplets)[closed[k]] + [eventId], ratio)
    {
      ghost var before := currentTuplets;
      r := RegisterTuplets(closed, voice, eventId, ratio);
      if r.Ok? {
        forall k | 0 <= k < |closed| && |before| + k < |currentTuplets|
          ensures currentTuplets[|before|..][k] == currentTuplets[|before| + k]
        {
        }
      }
    }

    /** The loop of `parse_note` over the children of `<note>`: what it leaves in its
        locals, each one a function of the children. */
    method ParseNoteChildren(el: Element, note: NoteRef, bp: BarPart) returns (r: Result<(NoteFields, BarPart)>)
      modifies this`currentBeamId, this`openSlurs, this`completeSlurs, this`openTies, this`openTuplets, this`score
      ensures score.parts == old(score.parts) && |score.bars| == |old(score.bars)|
      ensures r.Ok? ==>
        var f := r.value.0;
        && f.sequenceId == VoiceOf(el.children)
        && f.isChord == HasTag(el.children, "chord")
        && f.isRest == HasTag(el.children, "rest")
        && f.noteType == NoteTypeOf(el.children)
        && f.dots == CountTag(el.children, "dot")
        && f.closed == ClosedNumbers(el.children)
        && (f.pitch.Some? <==> HasTag(el.children, "pitch"))
        && (f.beamId.Some? ==> f.beamId.value != 0)
        && SequenceIds(r.value.1) == SequenceIds(bp)
        && SameChordTargets(r.value.1, bp)
      ensures var res := NoteChildrenOf(note, NoteState(old(Book()), old(currentBeamId), NoFields(), bp), el.children);
        && (r.Err? <==> res.Err?)
        && (r.Ok? ==> res.value == NoteState(Book(), currentBeamId, r.value.0, r.value.1))
    {
      var fields := NoFields();
      var b := bp;
      ghost var init := NoteState(Book(), currentBeamId, fields, b);
      var i := 0;
      while i < |el.children|
        invariant 0 <= i <= |el.children|
        invariant score.parts == old(score.parts) && |score.bars| == |old(score.bars)|
        invariant Shape(fields) == ShapeOf(el.children[..i])
        invariant fields.beamId.Some? ==> fields.beamId.value != 0
        invariant SequenceIds(b) == SequenceIds(bp) && SameChordTargets(b, bp)
        invariant NoteChildrenOf(note, init, el.children[..i]) == Ok(NoteState(Book(), currentBeamId, fields, b))
      {
        ShapeOfStep(el.children, i);
        FoldChildrenStep(Ok(init), el.children, i, UntilError(NoteChildStep(note)));
        var next := ParseNoteChild(el.children[i], note, fields, b);
        if next.Err? {
          ErrorEndsFold(Ok(init), el.children, i + 1, NoteChildStep(note));
          return Err(next.failure);
        }
        fields, b := next.value.0, next.value.1;
        i := i + 1;
      }
      assert el.children[..i] == el.children;
      return Ok((fields, b));
    }

    /** One child of `<note>`: the branch of `parse_note`'s loop for its tag. */
    method ParseNoteChild(c: Element, note: NoteRef, f: NoteFields, b: BarPart) returns (r: Result<(NoteFields, BarPart)>)
      modifies this`currentBeamId, this`openSlurs, this`completeSlurs, this`openTies, this`openTuplets, this`score
      ensures score.parts == old(score.parts) && |score.bars| == |old(score.bars)|
      ensures r.Ok? ==> Shape(r.value.0) == ShapeStep(Shape(f), c) && SequenceIds(r.value.1) == SequenceIds(b)
      ensures r.Ok? ==> SameChordTargets(r.value.1, b)
      ensures r.Ok? && r.value.0.beamId.Some? && r.value.0.beamId != f.beamId ==> r.value.0.beamId.value != 0
      ensures var res := NoteChild(note, NoteState(old(Book()), old(currentBeamId), f, b), c);
        && (r.Err? <==> res.Err?)
        && (r.Ok? ==> res.value == NoteState(Book(), currentBeamId, r.value.0, r.value.1))
    {
      if c.tag == "beam" {
        var id := ParseBeam(c);
        if id.Some? && id.value != 0 {
          return Ok((f.(beamId := id), b));
        }
        return Ok((f, b));
      } else if c.tag == "notations" {
        var n := ParseNotations(c, note, f.pitch, b);
        if n.Err? {
          return Err(n.failure);
        }
        return Ok((f.(closed := f.closed + n.value.closed, referenced := f.referenced || n.value.referenced), n.value.bp));
      }
      var g := ParseNoteValue(c, f);
      if g.Err? {
        return Err(g.failure);
      }
      return Ok((g.value, b));
    }

    /** The branches of `parse_note`'s loop that only set its locals. */
    method ParseNoteValue(c: Element, f: NoteFields) returns (r: Result<NoteFields>)
      requires c.tag != "beam" && c.tag != "notations"
      ensures r.Ok? ==> Shape(r.value) == ShapeStep(Shape(f), c) && r.value.beamId == f.beamId
      ensures c.tag == "accidental" ==> (r.Ok? <==> c.text.Some? && c.text.value in ACCIDENTAL_TYPES_FOR_IMPORT)
      ensures c.tag == "accidental" && r.Ok? ==> r.value.renderedAcc == Some(ACCIDENTAL_TYPES_FOR_IMPORT[c.text.value])
      ensures r == NoteValue(f, c)
    {
      if c.tag == "accidental" {
        if c.text.None? || c.text.value !in ACCIDENTAL_TYPES_FOR_IMPORT {
          return Err(DataError("Got unsupported <accidental> value " + c.text.GetOr("None") + "."));
        }
        return Ok(f.(renderedAcc := Some(ACCIDENTAL_TYPES_FOR_IMPORT[c.text.value])));
      } else if c.tag == "chord" {
        return Ok(f.(isChord := true));
      } else if c.tag == "dot" {
        return Ok(f.(dots := f.dots + 1));
      } else if c.tag == "duration" {
        var d := ParseDuration(c);
        if d.Err? {
          return Err(d.failure);
        }
      } else if c.tag == "pitch" {
        var p := ParsePitch(c);
        if p.Err? {
          return Err(p.failure);
        }
        return Ok(f.(pitch := Some(p.value)));
      } else if c.tag == "rest" {
        return Ok(f.(isRest := true));
      } else if c.tag == "time-modification" {
        var t := ParseTimeModification(c, f.noteType);
        if t.Err? {
          return Err(t.failure);
        }
        return Ok(f.(timeMod := Some(t.value)));
      } else if c.tag == "type" {
        var t := ParseType(c);
        if t.Err? {
          return Err(t.failure);
        }
        return Ok(f.(noteType := Some(t.value)));
      } else if c.tag == "voice" {
        return Ok(f.(sequenceId := c.text.GetOr("")));
      }
      return Ok(f);
    }

    /** The event a note goes into: with `<chord>`, the last event of the voice's sequence
        if it has one (a different duration is a data error); otherwise a new event with
        the next id, appended to the sequence. */
    method PlaceEvent(bp: BarPart, voice: string, isChord: bool, rd: RhythmicDuration) returns (r: Result<Placement>)
      modifies this`nextEventId
      ensures nextEventId >= old(nextEventId)
      ensures r.Err? ==> isChord && r.failure.DataError?
      ensures !isChord ==> r.Ok?
      ensures r.Ok? ==> ValidPlacement(r.value) && SameDuration(PlacedEvent(r.value).duration, rd)
      ensures r.Ok? ==>
        var p := r.value;
        && p.bp.sequences[p.seqIdx].sequenceId == voice
        && voice !in SequenceIds(p.bp)[..p.seqIdx]
        && (forall j :: p.itemIdx < j < |p.bp.sequences[p.seqIdx].items| ==> !p.bp.sequences[p.seqIdx].items[j].EventEntry?)
      ensures r.Ok? ==> SequenceIds(bp) <= SequenceIds(r.value.bp)
      ensures r.Ok? ==> LayoutOf(r.value.bp) == Layout(AddedVoice(SequenceIds(bp), voice), bp.directions)
      ensures var items := VoiceItems(bp, voice);
        var last := LastEventIndex(items);
        isChord && last.Some? ==>
          && nextEventId == old(nextEventId)
          && (r.Err? <==> !SameDuration(items[last.value].event.duration, rd))
          && (r.Ok? ==> r.value == Placement(bp, VoiceIndex(bp.sequences, voice), last.value))
      ensures var items := VoiceItems(bp, voice);
        !isChord || LastEventIndex(items).None? ==>
          && nextEventId == old(nextEventId) + 1
          && r == Ok(Placement(WithVoiceItems(bp, voice, items + [EventEntry(Event(old(nextEventId), rd, [], [], []))]),
                               VoiceIndex(bp.sequences, voice), |items|))
      ensures var target := ChordTarget(bp, voice);
        && (isChord && target.Some? ==>
              && nextEventId == old(nextEventId)
              && (r.Err? <==> !SameDuration(target.value.1, rd))
              && (r.Ok? ==> PlacedEvent(r.value).id == target.value.0))
        && (r.Ok? && !(isChord && target.Some?) ==>
              nextEventId == old(nextEventId) + 1 && PlacedEvent(r.value).id == old(nextEventId))
    {
      var b, idx := GetOrCreateSequence(bp, voice);
      WithVoiceItemsLayout(bp, voice, VoiceItems(bp, voice));
      assert SequenceIds(bp) <= SequenceIds(b);
      assert voice !in SequenceIds(b)[..idx];
      var s := b.sequences[idx];
      assert s.items == VoiceItems(bp, voice);
      if isChord {
        var last := GetLastEvent(s.items);
        if last.Some? {
          assert idx < |bp.sequences| && b == bp;
          var e := s.items[last.value].event;
          if !SameDuration(e.duration, rd) {
            return Err(DataError("Two separate <note>s within the same chord had different durations"));
          }
          return Ok(Placement(b, idx, last.value));
        }
      }
      var e := Event(nextEventId, rd, [], [], []);
      nextEventId := nextEventId + 1;
      SameDurationIsEquivalence(rd, rd, rd);
      AppendedIsWithVoiceItems(bp, voice, b, idx, e);
      return Ok(AppendedEvent(b, idx, e));
    }

    /** `parse_beam`. */
    method ParseBeam(el: Element) returns (r: Option<int>)
      modifies this`currentBeamId
      ensures (r, currentBeamId) == BeamStep(old(currentBeamId), el)
    {
      r := None;
      if Attr(el, "number").GetOr("1") == "1" && el.text.Some? && el.text.value != "" {
        var kind := el.text.value;
        if kind == "begin" {
          currentBeamId := currentBeamId + 1;
          r := Some(currentBeamId);
        } else if kind == "continue" {
          r := Some(currentBeamId);
        } else if kind == "end" {
          r := Some(currentBeamId);
          currentBeamId := currentBeamId + 1;
        }
      }
    }

    /** The beam part of `parse_note`: a note with a beam id joins that beam. */
    method RecordBeam(beamId: Option<int>, voice: string, eventId: nat)
      modifies this`currentBeams
      ensures currentBeams == BeamJoined(old(currentBeams), beamId, voice, eventId)
    {
      if beamId.Some? {
        AddEventToBeam(beamId.value, voice, eventId);
      }
    }

    /** `add_event_to_beam`: the first event of a beam id records its sequence; every
        event is appended to the beam's list. */
    method AddEventToBeam(beamId: int, voice: string, eventId: nat)
      modifies this`currentBeams
      ensures currentBeams == old(currentBeams)[beamId :=
        if beamId in old(currentBeams)
        then old(currentBeams)[beamId].(eventIds := old(currentBeams)[beamId].eventIds + [eventId])
        else BeamGroup(voice, [eventId])]
    {
      if beamId in currentBeams {
        var g := currentBeams[beamId];
        currentBeams := currentBeams[beamId := g.(eventIds := g.eventIds + [eventId])];
      } else {
        currentBeams := currentBeams[beamId := BeamGroup(voice, [eventId])];
      }
    }

    /** The tuplet part of `parse_note`: when any tuplet is open the event joins every open
        tuplet, then each tuplet this note closed moves, in order, to the pending list. */
    method RegisterTuplets(closed: seq<string>, voice: string, eventId: nat, ratio: Option<TupletRatio>)
      returns (r: Result<()>)
      modifies this`openTuplets, this`currentTuplets
      ensures old(openTuplets) == map[] ==> r.Ok? && openTuplets == map[] && currentTuplets == old(currentTuplets)
      ensures old(openTuplets) != map[] && r.Ok? ==>
        && |currentTuplets| == |old(currentTuplets)| + |closed|
        && (forall k :: 0 <= k < |closed| ==>
              closed[k] in old(openTuplets) &&
              currentTuplets[|old(currentTuplets)| + k] == PendingTuplet(voice, old(openTuplets)[closed[k]] + [eventId], ratio))
        && (forall n :: n in openTuplets <==> n in old(openTuplets) && n !in closed)
        && (forall n :: n in openTuplets ==> openTuplets[n] == old(openTuplets)[n] + [eventId])
      ensures r.Ok? ==> old(currentTuplets) <= currentTuplets
      ensures r.Ok? ==> forall k :: |old(currentTuplets)| <= k < |currentTuplets| ==>
        && currentTuplets[k].sequenceId == voice
        && currentTuplets[k].eventIds != []
        && currentTuplets[k].eventIds[|currentTuplets[k].eventIds| - 1] == eventId
      ensures r.Err? ==> (r.failure.InternalError? &&
        exists k :: 0 <= k < |closed| && (closed[k] !in old(openTuplets) || closed[k] in closed[..k]))
    {
      if openTuplets == map[] {
        return Ok(());
      }
      openTuplets := map n | n in openTuplets :: openTuplets[n] + [eventId];
      ghost var extended := openTuplets;
      r := CloseTuplets(closed, voice, ratio);
      if r.Ok? {
        forall k | |old(currentTuplets)| <= k < |currentTuplets|
          ensures currentTuplets[k].sequenceId == voice && currentTuplets[k].eventIds != []
          ensures currentTuplets[k].eventIds[|currentTuplets[k].eventIds| - 1] == eventId
        {
          var j := k - |old(currentTuplets)|;
          assert currentTuplets[|old(currentTuplets)| + j] == PendingTuplet(voice, extended[closed[j]], ratio);
        }
      }
    }

    /** The loop of `parse_note` that pops each closed tuplet number from `open_tuplets`
        into the pending list. A number that is not open (or is closed twice) raises
        KeyError. */
    method CloseTuplets(closed: seq<string>, voice: string, ratio: Option<TupletRatio>) returns (r: Result<()>)
      modifies this`openTuplets, this`currentTuplets
      ensures r.Ok? ==>
        && |currentTuplets| == |old(currentTuplets)| + |closed|
        && old(currentTuplets) <= currentTuplets
        && (forall k :: 0 <= k < |closed| ==>
              closed[k] in old(openTuplets) &&
              currentTuplets[|old(currentTuplets)| + k] == PendingTuplet(voice, old(openTuplets)[closed[k]], ratio))
        && (forall n :: n in openTuplets <==> n in old(openTuplets) && n !in closed)
        && (forall n :: n in openTuplets ==> openTuplets[n] == old(openTuplets)[n])
      ensures r.Err? ==> (r.failure.InternalError? &&
        exists k :: 0 <= k < |closed| && (closed[k] !in old(openTuplets) || closed[k] in closed[..k]))
    {
      var i := 0;
      while i < |closed|
        invariant 0 <= i <= |closed|
        invariant forall n :: n in openTuplets <==> n in old(openTuplets) && n !in closed[..i]
        invariant forall n :: n in openTuplets ==> openTuplets[n] == old(openTuplets)[n]
        invariant |currentTuplets| == |old(currentTuplets)| + i
        invariant old(currentTuplets) <= currentTuplets
        invariant forall k :: 0 <= k < i ==>
          closed[k] in old(openTuplets) &&
          currentTuplets[|old(currentTuplets)| + k] == PendingTuplet(voice, old(openTuplets)[closed[k]], ratio)
      {
        var n := closed[i];
        if n !in openTuplets {
          return Err(InternalError("KeyError: '" + n + "'"));
        }
        currentTuplets := currentTuplets + [PendingTuplet(voice, openTuplets[n], ratio)];
        openTuplets := openTuplets - {n};
        assert closed[..i + 1] == closed[..i] + [n];
        i := i + 1;
      }
      assert closed[..i] == closed;
      return Ok(());
    }

    // -------------------------------------------------------------------------------------
    // parse_notations, parse_slur, parse_tuplet, get_open_tie_by_end_note

    /** `parse_notations` for the note `note` whose pitch so far is `pitch`: slurs and
        tuplets update their bookkeeping; a tie start opens a tie; a tie stop (which needs
        the pitch already read) closes the first matching open tie, sets its note's
        `tie_end_note` wherever that note is, and marks this note referenced. */
    method ParseNotations(el: Element, note: NoteRef, pitch: Option<Pitch>, bp: BarPart)
      returns (r: Result<NotationsOutcome>)
      modifies this`openSlurs, this`completeSlurs, this`openTies, this`openTuplets, this`score
      ensures var res := NotationsOf(note, pitch, NotationState(old(Book()), NotationsOutcome([], false, bp)), el.children);
        && (r.Err? <==> res.Err?)
        && (r.Ok? ==> res.value == NotationState(Book(), r.value))
      ensures score.parts == old(score.parts) && |score.bars| == |old(score.bars)|
      ensures r.Ok? ==> r.value.closed == TupletStops(el.children)
      ensures r.Ok? ==> SequenceIds(r.value.bp) == SequenceIds(bp) && SameChordTargets(r.value.bp, bp)
      ensures r.Ok? && r.value.referenced ==> HasTiedStop(el.children)
      ensures HasTiedStop(el.children) && pitch.None? ==> r.Err?
    {
      ghost var init := NotationState(Book(), NotationsOutcome([], false, bp));
      var acc := NotationsOutcome([], false, bp);
      var i := 0;
      while i < |el.children|
        invariant 0 <= i <= |el.children|
        invariant NotationsOf(note, pitch, init, el.children[..i]) == Ok(NotationState(Book(), acc))
        invariant score.parts == old(score.parts) && |score.bars| == |old(score.bars)|
        invariant NotationsKept(el.children[..i], acc, bp, pitch)
      {
        PrefixStep(el.children, i);
        TiedStopStep(el.children, i);
        TupletStopsStep(el.children, i);
        var o := ParseNotationAt(el.children, i, note, pitch, init, acc);
        if o.Err? {
          return Err(o.failure);
        }
        acc := o.value;
        i := i + 1;
      }
      assert el.children[..i] == el.children;
      return Ok(acc);
    }

    /** What the `<notations>` loop keeps after the children `cs`: the tuplets they stop,
        the bar part's sequences and chord targets, and a reference only after a tie stop,
        which needs a pitch. */
    ghost predicate NotationsKept(cs: seq<Element>, acc: NotationsOutcome, bp: BarPart, pitch: Option<Pitch>) {
      && acc.closed == TupletStops(cs)
      && SequenceIds(acc.bp) == SequenceIds(bp) && SameChordTargets(acc.bp, bp)
      && (acc.referenced ==> HasTiedStop(cs))
      && (pitch.None? ==> !HasTiedStop(cs))
    }

    /** Child `i` of `<notations>` read after the ones before it: the loop's outcome one
        child further, or the error the whole loop ends with. */
    method ParseNotationAt(cs: seq<Element>, i: nat, note: NoteRef, pitch: Option<Pitch>,
                           ghost init: NotationState, acc: NotationsOutcome)
      returns (r: Result<NotationsOutcome>)
      requires i < |cs| && NotationsOf(note, pitch, init, cs[..i]) == Ok(NotationState(Book(), acc))
      modifies this`openSlurs, this`completeSlurs, this`openTies, this`openTuplets, this`score
      ensures r.Err? ==> NotationsOf(note, pitch, init, cs).Err?
      ensures r.Ok? ==> NotationsOf(note, pitch, init, cs[..i + 1]) == Ok(NotationState(Book(), r.value))
      ensures score.parts == old(score.parts) && |score.bars| == |old(score.bars)|
      ensures r.Ok? ==> r.value.closed == acc.closed + TupletStops([cs[i]]) && SequenceIds(r.value.bp) == SequenceIds(acc.bp)
      ensures r.Ok? ==> SameChordTargets(r.value.bp, acc.bp)
      ensures r.Ok? && r.value.referenced ==> acc.referenced || IsTiedStop(cs[i])
      ensures IsTiedStop(cs[i]) && pitch.None? ==> r.Err?
    {
      NotationsOfStep(note, pitch, init, cs, i, NotationState(Book(), acc));
      r := ParseNotation(cs[i], note, pitch, acc);
    }

    /** One child of `<notations>`: the branch of `parse_notations`' loop for its tag, on
        the loop's outcome so far. */
    method ParseNotation(c: Element, note: NoteRef, pitch: Option<Pitch>, acc: NotationsOutcome)
      returns (r: Result<NotationsOutcome>)
      modifies this`openSlurs, this`completeSlurs, this`openTies, this`openTuplets, this`score
      ensures var res := Notation(note, pitch, NotationState(old(Book()), acc), c);
        && (r.Err? <==> res.Err?)
        && (r.Ok? ==> res.value == NotationState(Book(), r.value))
      ensures score.parts == old(score.parts) && |score.bars| == |old(score.bars)|
      ensures r.Ok? ==> r.value.closed == acc.closed + TupletStops([c]) && SequenceIds(r.value.bp) == SequenceIds(acc.bp)
      ensures r.Ok? ==> SameChordTargets(r.value.bp, acc.bp)
      ensures r.Ok? && r.value.referenced ==> acc.referenced || IsTiedStop(c)
      ensures IsTiedStop(c) && pitch.None? ==> r.Err?
    {
      if c.tag == "slur" {
        ParseSlur(c, note);
      } else if c.tag == "tied" {
        r := ParseTied(c, note, pitch, acc);
        return;
      } else if c.tag == "tuplet" {
        var n := ParseTuplet(c);
        if n.Some? && n.value != "" {
          return Ok(acc.(closed := acc.closed + [n.value]));
        }
      }
      return Ok(acc);
    }

    /** The `<tied>` branch of `parse_notations`: a start opens a tie on the note, a stop
        needs the pitch and closes the matching open tie. */
    method ParseTied(c: Element, note: NoteRef, pitch: Option<Pitch>, acc: NotationsOutcome)
      returns (r: Result<NotationsOutcome>)
      requires c.tag == "tied"
      modifies this`openTies, this`score
      ensures var res := Notation(note, pitch, NotationState(old(Book()), acc), c);
        && (r.Err? <==> res.Err?)
        && (r.Ok? ==> res.value == NotationState(Book(), r.value))
      ensures score.parts == old(score.parts) && |score.bars| == |old(score.bars)|
      ensures r.Ok? ==> r.value.closed == acc.closed && SequenceIds(r.value.bp) == SequenceIds(acc.bp)
      ensures r.Ok? ==> SameChordTargets(r.value.bp, acc.bp)
      ensures r.Ok? && r.value.referenced ==> acc.referenced || IsTiedStop(c)
      ensures IsTiedStop(c) && pitch.None? ==> r.Err?
    {
      var tiedType := Attr(c, "type");
      if tiedType == Some("start") {
        openTies := openTies + [OpenTie(note, pitch)];
      } else if tiedType == Some("stop") {
        if pitch.None? {
          return Err(DataError("<tied> must come after <pitch> in <note>."));
        }
        var t := ParseTiedStop(note, pitch.value, acc.bp);
        if t.Err? {
          return Err(t.failure);
        }
        return Ok(acc.(referenced := acc.referenced || t.value.0, bp := t.value.1));
      }
      return Ok(acc);
    }

    /** `<tied type="stop">` on a note with a pitch: the first matching open tie is closed
        and its start note gets `tie_end_note`, in the score and in the bar part being
        built alike; the result says whether one matched (this note is then referenced). */
    method ParseTiedStop(note: NoteRef, pitch: Pitch, b: BarPart) returns (r: Result<(bool, BarPart)>)
      modifies this`openTies, this`score
      ensures var m := TieMatch(old(openTies), note.serial, pitch);
        && (r.Err? <==> m.Err?)
        && (m == Ok(None) ==> r == Ok((false, b)) && score == old(score) && openTies == old(openTies))
        && (m.Ok? && m.value.Some? ==>
              var f := SetTieEnd(old(openTies)[m.value.value].note.serial, note.number);
              && r == Ok((true, MapBarPart(b, EventUpdate(f))))
              && score == UpdateEvents(old(score), f)
              && openTies == WithoutIndex(old(openTies), m.value.value))
      ensures score.parts == old(score.parts) && |score.bars| == |old(score.bars)|
      ensures r.Ok? ==> SequenceIds(r.value.1) == SequenceIds(b) && SameChordTargets(r.value.1, b)
    {
      var start := GetOpenTieByEndNote(note.serial, pitch);
      if start.Err? {
        return Err(start.failure);
      }
      if start.value.None? {
        return Ok((false, b));
      }
      var f := SetTieEnd(start.value.value.serial, note.number);
      score := UpdateEvents(score, f);
      var b' := MapBarPart(b, EventUpdate(f));
      assert SequenceIds(b') == SequenceIds(b);
      ChordTargetsAfterTie(b, start.value.value.serial, note.number);
      return Ok((true, b'));
    }

    /** `parse_slur`: a start fills the slot of its number (replacing what was there); a
        stop completes the open slur of its number, and is ignored when there is none. */
    method ParseSlur(el: Element, note: NoteRef)
      modifies this`openSlurs, this`completeSlurs
      ensures var n := SlurNumber(el);
        && (Attr(el, "type") == Some("start") ==>
              openSlurs == old(openSlurs)[n := OpenSlur(SlurSide(el), el.attrs, note)] && completeSlurs == old(completeSlurs))
        && (Attr(el, "type") == Some("stop") && n in old(openSlurs) ==>
              var o := old(openSlurs)[n];
              openSlurs == old(openSlurs) - {n} &&
              completeSlurs == old(completeSlurs) + [CompleteSlur(o.side, o.startAttrs, el.attrs, o.startNote, note)])
        && (Attr(el, "type") != Some("start") && !(Attr(el, "type") == Some("stop") && n in old(openSlurs)) ==>
              openSlurs == old(openSlurs) && completeSlurs == old(completeSlurs))
    {
      var number := SlurNumber(el);
      var slurType := Attr(el, "type");
      if slurType == Some("start") {
        openSlurs := openSlurs[number := OpenSlur(SlurSide(el), el.attrs, note)];
      } else if slurType == Some("stop") {
        if number in openSlurs {
          var o := openSlurs[number];
          completeSlurs := completeSlurs + [CompleteSlur(o.side, o.startAttrs, el.attrs, o.startNote, note)];
          openSlurs := openSlurs - {number};
        }
      }
    }

    /** `parse_tuplet`: a start opens an empty event list under its number (replacing an
        open one); a stop returns its number. */
    method ParseTuplet(el: Element) returns (closed: Option<string>)
      modifies this`openTuplets
      ensures closed == (if Attr(el, "type") == Some("stop") then Some(TupletNumber(el)) else None)
      ensures openTuplets ==
        (if Attr(el, "type") == Some("start") then old(openTuplets)[TupletNumber(el) := []] else old(openTuplets))
    {
      closed := None;
      var tupletType := Attr(el, "type");
      if tupletType == Some("start") {
        openTuplets := openTuplets[TupletNumber(el) := []];
      } else if tupletType == Some("stop") {
        closed := Some(TupletNumber(el));
      }
    }

    /** `get_open_tie_by_end_note`: remove and return the first open tie that starts on
        another note with the same pitch. */
    method GetOpenTieByEndNote(serial: nat, pitch: Pitch) returns (r: Result<Option<NoteRef>>)
      modifies this`openTies
      ensures var m := TieMatch(old(openTies), serial, pitch);
        && (r.Err? <==> m.Err?)
        && (r.Err? ==> r.failure.InternalError?)
        && (m == Ok(None) ==> r == Ok(None) && openTies == old(openTies))
        && (m.Ok? && m.value.Some? ==>
              r == Ok(Some(old(openTies)[m.value.value].note)) && openTies == WithoutIndex(old(openTies), m.value.value))
    {
      var i := 0;
      while i < |openTies|
        invariant 0 <= i <= |openTies|
        invariant openTies == old(openTies)
        invariant TieMatch(openTies, serial, pitch) == TieMatchFrom(openTies, i, serial, pitch)
      {
        var t := openTies[i];
        if t.note.serial != serial {
          if t.pitch.None? {
            return Err(InternalError("AttributeError: 'NoneType' object has no attribute 'step'"));
          }
          if t.pitch.value == pitch {
            openTies := WithoutIndex(openTies, i);
            return Ok(Some(t.note));
          }
        }
        i := i + 1;
      }
      return Ok(None);
    }

    // -------------------------------------------------------------------------------------
    // End-of-measure resolution: add_slur, heuristic_slur_targets_notes, set_tuplet,
    // add_octave_shift

    /** `heuristic_slur_targets_notes` for complete slur `i`: does another complete slur
        start in the same event and end in the same event? */
    method HeuristicSlurTargetsNotes(i: nat, startId: nat, endId: nat) returns (b: bool)
      ensures b == SharesEvents(score, completeSlurs, i, startId, endId)
    {
      b := OtherSlurJoins(score, completeSlurs, i, startId, endId);
    }

    /** `add_slur` for complete slur `i`: both notes must be in the score (a missing one
        raises on `None`); then the score becomes `SlurredScore`, which edits events in
        place, so the events and their order are unchanged. */
    method AddSlur(i: nat) returns (r: Result<()>)
      requires i < |completeSlurs|
      modifies this`score
      ensures var rec := completeSlurs[i];
        var s := EventOfNote(old(score), rec.startNote);
        var e := EventOfNote(old(score), rec.endNote);
        && (r.Ok? <==> s.Some? && e.Some?)
        && (r.Err? ==> r.failure.InternalError? && score == old(score))
        && (r.Ok? ==> score == SlurredScore(old(score), rec, s.value.id, e.value.id,
                                             s.value.id != e.value.id
                                             && SharesEvents(old(score), completeSlurs, i, s.value.id, e.value.id)))
      ensures r.Ok? ==> SlurAdded(old(score), completeSlurs, i) == Ok(score)
      ensures r.Err? ==> SlurAdded(old(score), completeSlurs, i) == Err(r.failure)
      ensures score.parts == old(score.parts) && |score.bars| == |old(score.bars)|
      ensures EventIds(ScoreEvents(score)) == EventIds(ScoreEvents(old(score)))
      ensures forall p :: StoredIds(score, p) == StoredIds(old(score), p)
    {
      var rec := completeSlurs[i];
      var startEv := GetEventContainingNote(score, NoteKey(rec.startNote.serial));
      var endEv := GetEventContainingNote(score, NoteKey(rec.endNote.serial));
      if startEv.None? || endEv.None? {
        return Err(InternalError("AttributeError: 'NoneType' object has no attribute 'slurs'"));
      }
      var startId := startEv.value.id;
      var endId := endEv.value.id;
      var targets := false;
      if startId != endId {
        targets := HeuristicSlurTargetsNotes(i, startId, endId);
      }
      SlurredKeepsFrame(score, rec, startId, endId, targets);
      score := SlurredScore(score, rec, startId, endId, targets);
      return Ok(());
    }

    /** `set_tuplet` on the sequence of a pending tuplet, found by id in the bar part
        stored for the part (the source holds the Sequence object itself). */
    method FoldPendingTuplet(partId: string, t: PendingTuplet) returns (r: Result<()>)
      requires StoredIds(score, partId).Some? && t.sequenceId in StoredIds(score, partId).value
      modifies this`score
      ensures score.parts == old(score.parts) && |score.bars| == |old(score.bars)|
      ensures r.Err? ==> r.failure.InternalError?
      ensures r.Ok? ==> StoredIds(score, partId) == StoredIds(old(score), partId)
      ensures r.Ok? ==> TupletFolded(old(score), partId, t) == Ok(score)
      ensures r.Err? ==> TupletFolded(old(score), partId, t) == Err(r.failure) && score == old(score)
    {
      var bar := LastBar(score);
      var stored := LookupBarPart(bar.barParts, partId).value;
      var idx := GetSequence(stored, t.sequenceId);
      if idx.None? {
        assert false;
      }
      var sq := stored.sequences[idx.value];
      var folded := FoldItems(sq.items, t.eventIds, t.ratio);
      if folded.Err? {
        return Err(folded.failure);
      }
      var stored' := stored.(sequences := stored.sequences[idx.value := sq.(items := folded.value)]);
      assert SequenceIds(stored') == SequenceIds(stored);
      score := WithLastBar(score, bar.(barParts := SetBarPart(bar.barParts, partId, stored')));
      LookupAfterSet(bar.barParts, partId, stored');
      return Ok(());
    }

    /** `add_octave_shift`: the marker goes right before the event holding the first note
        of the shift, with the measure location of the event holding the last one. */
    method AddOctaveShift(shift: OpenShift) returns (r: Result<()>)
      modifies this`score
      ensures shift.members == [] ==> r.Err? && r.failure.InternalError?
      ensures shift.members != [] ==>
        var start := EventContainingNote(old(score), shift.members[0]);
        var end := EventContainingNote(old(score), shift.members[|shift.members| - 1]);
        var pos := MeasureLocation(old(score), if end.Some? then Some(end.value.id) else None);
        && (r.Ok? <==> start.Some? && pos.Ok?)
        && (r.Ok? ==> score == MapScore(old(score), MarkerInsertion(start.value.id, OctaveShift(shift.shiftType, pos.value))))
      ensures r.Ok? ==> ShiftAdded(old(score), shift) == Ok(score)
      ensures r.Err? ==> ShiftAdded(old(score), shift) == Err(r.failure)
      ensures score.parts == old(score.parts) && |score.bars| == |old(score.bars)|
      ensures ScoreEvents(score) == ScoreEvents(old(score))
      ensures forall p :: StoredIds(score, p) == StoredIds(old(score), p)
    {
      if shift.members == [] {
        return Err(InternalError("IndexError: list index out of range"));
      }
      var start := GetEventContainingNote(score, shift.members[0]);
      var end := GetEventContainingNote(score, shift.members[|shift.members| - 1]);
      if start.None? {
        return Err(InternalError("AttributeError: 'NoneType' object has no attribute 'insert_before'"));
      }
      var pos := GetEventMeasureLocation(score, if end.Some? then Some(end.value.id) else None);
      if pos.Err? {
        return Err(pos.failure);
      }
      var g := MarkerInsertion(start.value.id, OctaveShift(shift.shiftType, pos.value));
      ScoreEventsOfInsertion(score, start.value.id, shift.shiftType, pos.value);
      forall p {
        MapScoreKeepsStored(score, g, p);
      }
      score := MapScore(score, g);
      return Ok(());
    }
  }

  /** The loop of `heuristic_slur_targets_notes` over the complete slurs other than `i`. */
  method OtherSlurJoins(score: Score, recs: seq<CompleteSlur>, i: nat, startId: nat, endId: nat) returns (b: bool)
    ensures b == SharesEvents(score, recs, i, startId, endId)
  {
    var j := 0;
    while j < |recs|
      invariant 0 <= j <= |recs|
      invariant forall m :: 0 <= m < j && m != i ==> !JoinsEvents(score, recs[m], startId, endId)
    {
      if j != i {
        var joins := SlurJoinsEvents(score, recs[j], startId, endId);
        if joins {
          return true;
        }
      }
      j := j + 1;
    }
    return false;
  }

  method SlurJoinsEvents(score: Score, rec: CompleteSlur, startId: nat, endId: nat) returns (b: bool)
    ensures b == JoinsEvents(score, rec, startId, endId)
  {
    var otherStart := GetEventContainingNote(score, NoteKey(rec.startNote.serial));
    var otherEnd := GetEventContainingNote(score, NoteKey(rec.endNote.serial));
    b := otherStart.Some? && otherStart.value.id == startId && otherEnd.Some? && otherEnd.value.id == endId;
  }

  /** `read_musicxml`: a fresh reader over the document. */
  method ReadMusicXml(xml: Element) returns (r: Result<Score>)
    ensures r.Ok? ==> PartsOf(PartListEntries(xml)).Ok? && r.value.parts == PartsOf(PartListEntries(xml)).value
    ensures r.Ok? ==> |r.value.bars| == |ChildrenWithTag(xml.children, "measure")|
    ensures r.Ok? ==>
      var m := MeasuresLayout(ChildrenWithTag(xml.children, "measure"), PartIds(r.value.parts));
      m.Some? && ScoreLayout(r.value) == m.value
    ensures r.Ok? ==> ScoreHeads(r.value) == MeasureHeads(ChildrenWithTag(xml.children, "measure"))
    ensures PartsOf(PartListEntries(xml)).Err? ==> r.Err? && r.failure.DataError?
  {
    var reader := new MusicXmlReader(xml);
    r := reader.Read();
  }
}
