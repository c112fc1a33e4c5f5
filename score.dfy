/** The intermediate score graph (mnxconverter/score.py): bars holding per-part bar parts,
    bar parts holding voice sequences, sequences holding events, tuplets and octave-shift
    markers, and the queries and list edits the reader and the writers perform on it.

    The graph is modelled as a value. Object identity, which the source relies on when it
    compares events and notes with `==`, is carried by numbers: an event by its id (the
    counter behind `event{n}`, unique because the reader increments it at every creation),
    an event item by the ordinal of the `<note>` element that created it. */
module ScoreModel {
  import opened Wrappers
  import opened Text
  import opened Fractions

  const DEFAULT_KEYSIG: int := 0

  // Note.ACCIDENTAL_*; ACCIDENTAL_DOUBLE_SHARP is assigned twice and keeps the later 5.
  const ACCIDENTAL_SHARP: int := 1
  const ACCIDENTAL_NATURAL: int := 2
  const ACCIDENTAL_FLAT: int := 3
  const ACCIDENTAL_DOUBLE_SHARP: int := 5
  const ACCIDENTAL_DOUBLE_FLAT: int := 6
  const ACCIDENTAL_NATURAL_SHARP: int := 7
  const ACCIDENTAL_NATURAL_FLAT: int := 8

  const SIDE_UP: int := 1
  const SIDE_DOWN: int := 2
  const INCOMPLETE_TYPE_INCOMING: int := 1
  const INCOMPLETE_TYPE_OUTGOING: int := 2

  const TYPE_8VA: int := 1
  const TYPE_8VB: int := 2
  const TYPE_15MA: int := 3
  const TYPE_15MB: int := 4
  const TYPE_22MA: int := 5
  const TYPE_22MB: int := 6

  const ENDING_TYPE_START: int := 1
  const ENDING_TYPE_STOP: int := 2
  const ENDING_TYPE_DISCONTINUE: int := 3

  /** Compared field by field, as `Pitch.__eq__` does. */
  datatype Pitch = Pitch(step: string, octave: int, alter: int)

  /** `frac` is None when the `<note>` had no `<type>`. */
  datatype RhythmicDuration = RhythmicDuration(frac: Option<Frac>, dots: nat)

  datatype TupletRatio = TupletRatio(outerNumerator: int, outerDenominator: int,
                                     innerNumerator: int, innerDenominator: int)

  /** The identity of an event item: the Note or the Rest object made for the `serial`-th
      `<note>` element. The Note object of a rest element never enters the score. */
  datatype ItemKey = NoteKey(serial: nat) | RestKey(serial: nat)

  /** `number` is n of the note id `note{n}`; `tieEndNote` is the number of the note
      ending a tie that starts here. */
  datatype Note = Note(serial: nat, number: nat, pitch: Pitch, renderedAcc: Option<int>,
                       tieEndNote: Option<nat>, isReferenced: bool)

  datatype EventItem = NoteItem(note: Note) | RestItem(serial: nat)

  function Key(item: EventItem): ItemKey {
    match item
    case NoteItem(n) => NoteKey(n.serial)
    case RestItem(s) => RestKey(s)
  }

  /** Event and note references are the numbers behind `event{n}` and `note{n}`. */
  datatype Slur = Slur(endEventId: Option<nat>, side: Option<int>, isIncomplete: bool,
                       incompleteType: Option<int>, startNote: Option<nat>, endNote: Option<nat>)

  /** `slurEnds` lists the ids of events starting slurs that end here. */
  datatype Event = Event(id: nat, duration: RhythmicDuration, eventItems: seq<EventItem>,
                         slurs: seq<Slur>, slurEnds: seq<nat>)

  /** A sequence item; a Tuplet is also a sequence content holding items. */
  datatype Item =
    | EventEntry(event: Event)
    | Tuplet(items: seq<Item>, ratio: Option<TupletRatio>)
    | OctaveShift(shiftType: int, endPos: string)

  datatype Sequence = Sequence(sequenceId: string, items: seq<Item>)

  datatype Clef = Clef(sign: Option<string>, line: Option<string>)

  /** `directions` holds the clef directions of the bar part. */
  datatype BarPart = BarPart(sequences: seq<Sequence>, directions: seq<Clef>)

  /** The `[numerator, denominator]` list the reader stores. */
  datatype TimeSig = TimeSig(count: int, unit: int)

  datatype Ending = Ending(endingType: int, numbers: Option<seq<int>>)

  /** `barParts` is the insertion-ordered dict from part id to bar part. */
  datatype Bar = Bar(timesig: Option<TimeSig>, keysig: Option<int>, startRepeat: bool,
                     endRepeat: int, startEnding: Option<Ending>, stopEnding: Option<Ending>,
                     barParts: seq<(string, BarPart)>)

  datatype Part = Part(partId: string, name: Option<string>)

  datatype Score = Score(parts: seq<Part>, bars: seq<Bar>)

  function NewBar(): Bar {
    Bar(None, None, false, 0, None, None, [])
  }

  /** `RhythmicDuration.__eq__`: fractions compared by value, None only equal to None. */
  predicate SameDuration(a: RhythmicDuration, b: RhythmicDuration) {
    && a.dots == b.dots
    && match a.frac
       case None => b.frac.None?
       case Some(x) => b.frac.Some? && SameValue(x, b.frac.value)
  }

  /** `RhythmicDuration.__eq__` is an equivalence, as the chord check relies on. */
  lemma SameDurationIsEquivalence(a: RhythmicDuration, b: RhythmicDuration, c: RhythmicDuration)
    ensures SameDuration(a, a)
    ensures SameDuration(a, b) ==> SameDuration(b, a)
    ensures SameDuration(a, b) && SameDuration(b, c) ==> SameDuration(a, c)
  {
    if SameDuration(a, b) && SameDuration(b, c) && a.frac.Some? {
      SameValueTransitive(a.frac.value, b.frac.value, c.frac.value);
    }
  }

  // ---------------------------------------------------------------------------------------
  // Depth-first event iteration

  function ItemEvents(item: Item): seq<Event>
    decreases item, 1
  {
    match item
    case EventEntry(e) => [e]
    case Tuplet(inner, _) => IterEvents(inner)
    case OctaveShift(_, _) => []
  }

  /** `iter_events` with a marker item yielding nothing (see ## Findings in the README for
      the source's own behaviour on markers). */
  function IterEvents(items: seq<Item>): seq<Event>
    decreases items, 0
  {
    if items == [] then [] else ItemEvents(items[0]) + IterEvents(items[1..])
  }

  function EventIds(events: seq<Event>): (ids: seq<nat>)
    ensures |ids| == |events| && forall i :: 0 <= i < |events| ==> ids[i] == events[i].id
  {
    if events == [] then [] else [events[0].id] + EventIds(events[1..])
  }

  predicate HasEvent(item: Item, id: nat) {
    id in EventIds(ItemEvents(item))
  }

  lemma {:induction false} IterEventsAppend(a: seq<Item>, b: seq<Item>)
    ensures IterEvents(a + b) == IterEvents(a) + IterEvents(b)
  {
    if a == [] {
      assert a + b == b;
    } else {
      assert (a + b)[0] == a[0];
      assert (a + b)[1..] == a[1..] + b;
      IterEventsAppend(a[1..], b);
      calc {
        IterEvents(a + b);
        ItemEvents(a[0]) + IterEvents(a[1..] + b);
        ItemEvents(a[0]) + (IterEvents(a[1..]) + IterEvents(b));
        (ItemEvents(a[0]) + IterEvents(a[1..])) + IterEvents(b);
      }
    }
  }

  /** A tuplet contributes its contents' events in place: wrapping a run of items in a
      Tuplet leaves the depth-first event order unchanged. */
  lemma IterEventsOfFold(pre: seq<Item>, mid: seq<Item>, post: seq<Item>, ratio: Option<TupletRatio>)
    ensures IterEvents(pre + [Tuplet(mid, ratio)] + post) == IterEvents(pre + mid + post)
  {
    IterEventsAppend(pre + [Tuplet(mid, ratio)], post);
    IterEventsAppend(pre, [Tuplet(mid, ratio)]);
    IterEventsAppend(pre + mid, post);
    IterEventsAppend(pre, mid);
    assert IterEvents([Tuplet(mid, ratio)]) == IterEvents(mid) by {
      assert [Tuplet(mid, ratio)][1..] == [];
    }
  }

  lemma {:induction false} EventIdsAppend(a: seq<Event>, b: seq<Event>)
    ensures EventIds(a + b) == EventIds(a) + EventIds(b)
  {
    if a != [] {
      assert (a + b)[0] == a[0];
      assert (a + b)[1..] == a[1..] + b;
      EventIdsAppend(a[1..], b);
    }
  }

  /** An item list holds an event with a given id exactly when one of its items does. */
  lemma {:induction false} IterEventsHasEvent(items: seq<Item>, id: nat)
    ensures id in EventIds(IterEvents(items)) <==> exists i :: 0 <= i < |items| && HasEvent(items[i], id)
  {
    if items != [] {
      IterEventsHasEvent(items[1..], id);
      EventIdsAppend(ItemEvents(items[0]), IterEvents(items[1..]));
      if id in EventIds(IterEvents(items[1..])) {
        var i :| 0 <= i < |items[1..]| && HasEvent(items[1..][i], id);
        assert HasEvent(items[i + 1], id);
      }
      if exists i :: 0 <= i < |items| && HasEvent(items[i], id) {
        var i :| 0 <= i < |items| && HasEvent(items[i], id);
        if i > 0 {
          assert HasEvent(items[1..][i - 1], id);
        }
      }
    }
  }

  // ---------------------------------------------------------------------------------------
  // find_item_idx_by_event

  /** The smallest top-level index whose item is, or contains, the event `id`. */
  function FirstItemWithEvent(items: seq<Item>, id: nat): (r: Option<nat>)
    ensures r.Some? ==> r.value < |items| && HasEvent(items[r.value], id)
    ensures r.Some? ==> forall j :: 0 <= j < r.value ==> !HasEvent(items[j], id)
    ensures r.None? <==> forall j :: 0 <= j < |items| ==> !HasEvent(items[j], id)
  {
    if items == [] then None
    else if HasEvent(items[0], id) then Some(0)
    else
      match FirstItemWithEvent(items[1..], id)
      case None => None
      case Some(k) => Some(k + 1)
  }

  /** `find_item_idx_by_event`: scan the items in order; an event item matches itself, any
      other item matches when its own event iteration yields the target. */
  method FindItemIdxByEvent(items: seq<Item>, id: nat) returns (r: Option<nat>)
    ensures r == FirstItemWithEvent(items, id)
  {
    var i := 0;
    while i < |items|
      invariant 0 <= i <= |items|
      invariant forall j :: 0 <= j < i ==> !HasEvent(items[j], id)
    {
      var item := items[i];
      if item.EventEntry? {
        if item.event.id == id {
          return Some(i);
        }
      } else {
        var events := ItemEvents(item);
        var k := 0;
        while k < |events|
          invariant 0 <= k <= |events|
          invariant forall m :: 0 <= m < k ==> events[m].id != id
        {
          if events[k].id == id {
            return Some(i);
          }
          k := k + 1;
        }
      }
      i := i + 1;
    }
    return None;
  }

  // ---------------------------------------------------------------------------------------
  // fold_items / set_tuplet

  /** `fold_items` with `klass=Tuplet` (what `set_tuplet` calls): the items from the one
      holding the first listed event to the one holding the last are replaced by a single
      Tuplet holding them in order. Python's slice arithmetic is kept: when the last event
      sits before the first, nothing is removed and an empty Tuplet is inserted. */
  function TupletFold(items: seq<Item>, eventList: seq<nat>, ratio: Option<TupletRatio>): Result<seq<Item>>
  {
    if eventList == [] then Err(InternalError("IndexError: list index out of range"))
    else
      var s := FirstItemWithEvent(items, eventList[0]);
      var e := FirstItemWithEvent(items, eventList[|eventList| - 1]);
      if s.None? || e.None? then Err(InternalError("Could not fold items."))
      else
        var end := if e.value + 1 < s.value then s.value else e.value + 1;
        Ok(items[..s.value] + [Tuplet(items[s.value..end], ratio)] + items[end..])
  }

  /** The method form of TupletFold, built as `fold_items` builds it: cut the run out,
      then insert the Tuplet where it began. */
  method FoldItems(items: seq<Item>, eventList: seq<nat>, ratio: Option<TupletRatio>)
    returns (r: Result<seq<Item>>)
    ensures eventList == [] ==> r.Err? && r.failure.InternalError?
    ensures eventList != [] ==>
      var s := FirstItemWithEvent(items, eventList[0]);
      var e := FirstItemWithEvent(items, eventList[|eventList| - 1]);
      && (r.Ok? <==> s.Some? && e.Some?)
      && (r.Err? ==> r.failure.InternalError?)
      && (r.Ok? ==>
            var end := if e.value + 1 < s.value then s.value else e.value + 1;
            r.value == items[..s.value] + [Tuplet(items[s.value..end], ratio)] + items[end..])
    ensures r == TupletFold(items, eventList, ratio)
  {
    if eventList == [] {
      return Err(InternalError("IndexError: list index out of range"));
    }
    var s := FindItemIdxByEvent(items, eventList[0]);
    var e := FindItemIdxByEvent(items, eventList[|eventList| - 1]);
    if s.None? || e.None? {
      return Err(InternalError("Could not fold items."));
    }
    var start := s.value;
    var end := if e.value + 1 < start then start else e.value + 1;
    var folded := items[start..end];
    var remaining := items[..start] + items[end..];
    var out := remaining[..start] + [Tuplet(folded, ratio)] + remaining[start..];
    CutThenInsert(items, start, end, Tuplet(folded, ratio));
    assert TupletFold(items, eventList, ratio) == Ok(out);
    r := Ok(out);
  }

  /** Cutting `xs[start..end]` out and inserting `x` where the cut began. */
  lemma CutThenInsert<T>(xs: seq<T>, start: nat, end: nat, x: T)
    requires start <= end <= |xs|
    ensures var remaining := xs[..start] + xs[end..];
      remaining[..start] + [x] + remaining[start..] == xs[..start] + [x] + xs[end..]
  {
    var remaining := xs[..start] + xs[end..];
    assert remaining[..start] == xs[..start];
    assert remaining[start..] == xs[end..];
  }

  /** Folding a forward run keeps every event, in the same depth-first order. */
  lemma FoldKeepsEventOrder(items: seq<Item>, s: nat, e: nat, ratio: Option<TupletRatio>)
    requires s <= e < |items|
    ensures IterEvents(items[..s] + [Tuplet(items[s..e + 1], ratio)] + items[e + 1..]) == IterEvents(items)
  {
    SplitInThree(items, s, e + 1);
    IterEventsOfFold(items[..s], items[s..e + 1], items[e + 1..], ratio);
  }

  lemma SplitAround<T>(xs: seq<T>, i: nat)
    requires i < |xs|
    ensures xs[..i] + [xs[i]] + xs[i + 1..] == xs
  {
  }

  lemma SplitInThree<T>(xs: seq<T>, s: nat, e: nat)
    requires s <= e <= |xs|
    ensures xs[..s] + xs[s..e] + xs[e..] == xs
  {
  }

  // ---------------------------------------------------------------------------------------
  // insert_before

  /** `event.insert_before(x)`: `x` goes into the item list that is the event's parent (the
      innermost sequence or tuplet holding it), at the event's index. */
  function InsertBeforeEvent(items: seq<Item>, id: nat, x: Item): (r: seq<Item>)
    ensures FirstItemWithEvent(items, id).None? ==> r == items
    decreases items
  {
    match FirstItemWithEvent(items, id)
    case None => items
    case Some(i) =>
      match items[i]
      case EventEntry(_) => items[..i] + [x] + items[i..]
      case Tuplet(inner, ratio) => items[..i] + [Tuplet(InsertBeforeEvent(inner, id, x), ratio)] + items[i + 1..]
      case OctaveShift(_, _) => items
  }

  /** When the event sits directly in this list at index `i`, the new item takes index `i`,
      the event and everything after it move right by one, and nothing before it moves. */
  lemma InsertBeforeShiftsRight(items: seq<Item>, id: nat, x: Item, i: nat)
    requires i < |items| && items[i].EventEntry? && items[i].event.id == id
    requires forall j :: 0 <= j < i ==> !HasEvent(items[j], id)
    ensures var r := InsertBeforeEvent(items, id, x);
      |r| == |items| + 1 && r[..i] == items[..i] && r[i] == x && r[i + 1..] == items[i..]
  {
    assert HasEvent(items[i], id);
    assert FirstItemWithEvent(items, id) == Some(i);
  }

  /** Inserting a marker changes no event and no event order. */
  lemma {:induction false} InsertMarkerKeepsEvents(items: seq<Item>, id: nat, shiftType: int, endPos: string)
    ensures IterEvents(InsertBeforeEvent(items, id, OctaveShift(shiftType, endPos))) == IterEvents(items)
    decreases items
  {
    var x := OctaveShift(shiftType, endPos);
    match FirstItemWithEvent(items, id)
    case None =>
    case Some(i) =>
      match items[i]
      case EventEntry(_) =>
        SplitInThree(items, i, i);
        MarkerAddsNoEvents(items[..i], items[i..], shiftType, endPos);
      case Tuplet(inner, ratio) =>
        SplitAround(items, i);
        InsertMarkerKeepsEvents(inner, id, shiftType, endPos);
        SameTupletEvents(items[..i], InsertBeforeEvent(inner, id, x), inner, items[i + 1..], ratio);
      case OctaveShift(_, _) =>
  }

  lemma MarkerAddsNoEvents(pre: seq<Item>, post: seq<Item>, shiftType: int, endPos: string)
    ensures IterEvents(pre + [OctaveShift(shiftType, endPos)] + post) == IterEvents(pre + post)
  {
    var x := OctaveShift(shiftType, endPos);
    IterEventsAppend(pre + [x], post);
    IterEventsAppend(pre, [x]);
    IterEventsAppend(pre, post);
    assert IterEvents([x]) == [] by {
      assert [x][1..] == [];
    }
  }

  lemma SameTupletEvents(pre: seq<Item>, m: seq<Item>, m': seq<Item>, post: seq<Item>, ratio: Option<TupletRatio>)
    requires IterEvents(m) == IterEvents(m')
    ensures IterEvents(pre + [Tuplet(m, ratio)] + post) == IterEvents(pre + [Tuplet(m', ratio)] + post)
  {
    IterEventsAppend(pre + [Tuplet(m, ratio)], post);
    IterEventsAppend(pre, [Tuplet(m, ratio)]);
    IterEventsAppend(pre + [Tuplet(m', ratio)], post);
    IterEventsAppend(pre, [Tuplet(m', ratio)]);
    assert IterEvents([Tuplet(m, ratio)]) == IterEvents(m) by {
      assert [Tuplet(m, ratio)][1..] == [];
    }
    assert IterEvents([Tuplet(m', ratio)]) == IterEvents(m') by {
      assert [Tuplet(m', ratio)][1..] == [];
    }
  }

  // ---------------------------------------------------------------------------------------
  // BarPart.get_sequence / get_or_create_sequence, Sequence.get_last_event

  /** `get_sequence`: the index of the first sequence with that id, if any. */
  method GetSequence(bp: BarPart, sequenceId: string) returns (r: Option<nat>)
    ensures r.Some? ==> r.value < |bp.sequences| && bp.sequences[r.value].sequenceId == sequenceId
    ensures r.Some? ==> forall j :: 0 <= j < r.value ==> bp.sequences[j].sequenceId != sequenceId
    ensures r.None? <==> forall j :: 0 <= j < |bp.sequences| ==> bp.sequences[j].sequenceId != sequenceId
  {
    var i := 0;
    while i < |bp.sequences|
      invariant 0 <= i <= |bp.sequences|
      invariant forall j :: 0 <= j < i ==> bp.sequences[j].sequenceId != sequenceId
    {
      if bp.sequences[i].sequenceId == sequenceId {
        return Some(i);
      }
      i := i + 1;
    }
    return None;
  }

  /** The index `get_or_create_sequence` settles on: the first sequence with that id, or one
      past the last when there is none. */
  function VoiceIndex(seqs: seq<Sequence>, sequenceId: string): (i: nat)
    ensures i <= |seqs|
    ensures forall j :: 0 <= j < i ==> seqs[j].sequenceId != sequenceId
    ensures i < |seqs| ==> seqs[i].sequenceId == sequenceId
  {
    if seqs == [] then 0
    else if seqs[0].sequenceId == sequenceId then 0
    else 1 + VoiceIndex(seqs[1..], sequenceId)
  }

  /** The items of the sequence with that id; none for a sequence still to be created. */
  function VoiceItems(bp: BarPart, sequenceId: string): seq<Item> {
    var i := VoiceIndex(bp.sequences, sequenceId);
    if i < |bp.sequences| then bp.sequences[i].items else []
  }

  /** The bar part with the items of the sequence with that id set to `items`; the sequence
      is appended when there is none with that id. */
  function WithVoiceItems(bp: BarPart, sequenceId: string, items: seq<Item>): BarPart {
    var i := VoiceIndex(bp.sequences, sequenceId);
    if i < |bp.sequences| then bp.(sequences := bp.sequences[i := Sequence(sequenceId, items)])
    else bp.(sequences := bp.sequences + [Sequence(sequenceId, items)])
  }

  /** `get_or_create_sequence`: an existing sequence with that id is returned and the bar
      part is left alone; otherwise exactly one new empty sequence with that id is appended
      and returned. */
  method GetOrCreateSequence(bp: BarPart, sequenceId: string) returns (bp': BarPart, idx: nat)
    ensures idx < |bp'.sequences| && bp'.sequences[idx].sequenceId == sequenceId
    ensures forall j :: 0 <= j < idx ==> bp'.sequences[j].sequenceId != sequenceId
    ensures (exists j :: 0 <= j < |bp.sequences| && bp.sequences[j].sequenceId == sequenceId) ==>
      bp' == bp
    ensures (forall j :: 0 <= j < |bp.sequences| ==> bp.sequences[j].sequenceId != sequenceId) ==>
      bp' == bp.(sequences := bp.sequences + [Sequence(sequenceId, [])]) && idx == |bp.sequences|
    ensures idx == VoiceIndex(bp.sequences, sequenceId)
    ensures bp' == WithVoiceItems(bp, sequenceId, VoiceItems(bp, sequenceId))
  {
    var found := GetSequence(bp, sequenceId);
    if found.Some? {
      assert bp.sequences[found.value] == Sequence(sequenceId, bp.sequences[found.value].items);
      assert bp.sequences[found.value := Sequence(sequenceId, VoiceItems(bp, sequenceId))] == bp.sequences;
      return bp, found.value;
    }
    bp' := bp.(sequences := bp.sequences + [Sequence(sequenceId, [])]);
    idx := |bp.sequences|;
  }

  /** `get_last_event` as a value: the index of the last top-level item that is an event. */
  function LastEventIndex(items: seq<Item>): (r: Option<nat>)
    ensures r.Some? ==> r.value < |items| && items[r.value].EventEntry?
    ensures r.Some? ==> forall j :: r.value < j < |items| ==> !items[j].EventEntry?
    ensures r.None? <==> forall j :: 0 <= j < |items| ==> !items[j].EventEntry?
  {
    if items == [] then None
    else if items[|items| - 1].EventEntry? then Some(|items| - 1)
    else LastEventIndex(items[..|items| - 1])
  }

  /** `get_last_event`: the index of the last top-level item that is an event. */
  method GetLastEvent(items: seq<Item>) returns (r: Option<nat>)
    ensures r == LastEventIndex(items)
    ensures r.Some? ==> r.value < |items| && items[r.value].EventEntry?
    ensures r.Some? ==> forall j :: r.value < j < |items| ==> !items[j].EventEntry?
    ensures r.None? <==> forall j :: 0 <= j < |items| ==> !items[j].EventEntry?
  {
    var i := |items|;
    while i > 0
      invariant 0 <= i <= |items|
      invariant forall j :: i <= j < |items| ==> !items[j].EventEntry?
    {
      i := i - 1;
      if items[i].EventEntry? {
        return Some(i);
      }
    }
    return None;
  }

  // ---------------------------------------------------------------------------------------
  // Bar.active_keysig / keysig_changed / timesig_changed

  /** The key in force at bar `idx`: its own keysig, else the one in force at the bar
      before, else the default. */
  function EffectiveKey(bars: seq<Bar>, idx: nat): int
    requires idx < |bars|
  {
    if bars[idx].keysig.Some? then bars[idx].keysig.value
    else if idx == 0 then DEFAULT_KEYSIG
    else EffectiveKey(bars, idx - 1)
  }

  /** The effective key is the keysig of the nearest bar at or before `idx` that has one,
      and the default when none has. */
  lemma {:induction false} EffectiveKeyIsNearest(bars: seq<Bar>, idx: nat)
    requires idx < |bars|
    ensures forall j :: (0 <= j <= idx && bars[j].keysig.Some? &&
      (forall m :: j < m <= idx ==> bars[m].keysig.None?)) ==> EffectiveKey(bars, idx) == bars[j].keysig.value
    ensures (forall j :: 0 <= j <= idx ==> bars[j].keysig.None?) ==> EffectiveKey(bars, idx) == DEFAULT_KEYSIG
  {
    if idx > 0 && bars[idx].keysig.None? {
      EffectiveKeyIsNearest(bars, idx - 1);
    }
  }

  /** `active_keysig`: walk back from bar `idx` to the first bar with a keysig. */
  method ActiveKeysig(bars: seq<Bar>, idx: nat) returns (k: int)
    requires idx < |bars|
    ensures k == EffectiveKey(bars, idx)
  {
    var i: int := idx;
    while i >= 0
      invariant -1 <= i <= idx
      invariant i >= 0 ==> EffectiveKey(bars, i) == EffectiveKey(bars, idx)
      invariant i < 0 ==> EffectiveKey(bars, idx) == DEFAULT_KEYSIG
    {
      if bars[i].keysig.Some? {
        return bars[i].keysig.value;
      }
      i := i - 1;
    }
    return DEFAULT_KEYSIG;
  }

  /** `keysig_changed`. */
  predicate KeysigChanged(bars: seq<Bar>, idx: nat)
    requires idx < |bars|
    ensures idx == 0 ==> KeysigChanged(bars, idx)
    ensures idx > 0 && bars[idx].keysig.None? ==> !KeysigChanged(bars, idx)
    ensures idx > 0 && bars[idx].keysig.Some? ==>
      (KeysigChanged(bars, idx) <==> bars[idx].keysig.value != EffectiveKey(bars, idx - 1))
  {
    idx == 0 || EffectiveKey(bars, idx - 1) != EffectiveKey(bars, idx)
  }

  /** `timesig_changed`: raw comparison with the previous bar, None included. */
  predicate TimesigChanged(bars: seq<Bar>, idx: nat)
    requires idx < |bars|
    ensures idx == 0 ==> TimesigChanged(bars, idx)
    ensures idx > 0 && bars[idx].timesig == bars[idx - 1].timesig ==> !TimesigChanged(bars, idx)
    ensures idx > 0 && bars[idx].timesig.None? && bars[idx - 1].timesig.Some? ==> TimesigChanged(bars, idx)
  {
    idx == 0 || bars[idx - 1].timesig != bars[idx].timesig
  }

  // ---------------------------------------------------------------------------------------
  // Whole-score scans: get_event_containing_note, get_event_measure_location

  /** One voice sequence met by the score scans, with the index of its bar. */
  datatype Run = Run(barIndex: nat, items: seq<Item>)

  function SequenceRuns(seqs: seq<Sequence>, barIndex: nat): seq<Run> {
    if seqs == [] then [] else [Run(barIndex, seqs[0].items)] + SequenceRuns(seqs[1..], barIndex)
  }

  function PartRuns(parts: seq<(string, BarPart)>, barIndex: nat): seq<Run> {
    if parts == [] then []
    else SequenceRuns(parts[0].1.sequences, barIndex) + PartRuns(parts[1..], barIndex)
  }

  /** The sequences of bars `from..`, in the scans' order: bar, then bar part in dict order,
      then sequence. */
  function BarRuns(bars: seq<Bar>, from: nat): seq<Run>
    decreases |bars|
  {
    if bars == [] then [] else PartRuns(bars[0].barParts, from) + BarRuns(bars[1..], from + 1)
  }

  function Runs(score: Score): seq<Run> {
    BarRuns(score.bars, 0)
  }

  function RunEvents(runs: seq<Run>): seq<Event> {
    if runs == [] then [] else IterEvents(runs[0].items) + RunEvents(runs[1..])
  }

  /** Every event of the score in scan order. */
  function ScoreEvents(score: Score): seq<Event> {
    RunEvents(Runs(score))
  }

  function ItemKeys(items: seq<EventItem>): (keys: seq<ItemKey>)
    ensures |keys| == |items| && forall i :: 0 <= i < |items| ==> keys[i] == Key(items[i])
  {
    if items == [] then [] else [Key(items[0])] + ItemKeys(items[1..])
  }

  predicate Holds(e: Event, key: ItemKey) {
    key in ItemKeys(e.eventItems)
  }

  /** The first event in the list holding the item `key`. */
  function FirstHolding(events: seq<Event>, key: ItemKey): (r: Option<Event>)
    ensures r.Some? ==> r.value in events && Holds(r.value, key)
    ensures r.None? <==> forall j :: 0 <= j < |events| ==> !Holds(events[j], key)
  {
    if events == [] then None
    else if Holds(events[0], key) then Some(events[0])
    else FirstHolding(events[1..], key)
  }

  /** The event found is the one at the first index holding the item. */
  lemma {:induction false} FirstHoldingIsFirst(events: seq<Event>, key: ItemKey, i: nat)
    requires i < |events| && Holds(events[i], key)
    requires forall j :: 0 <= j < i ==> !Holds(events[j], key)
    ensures FirstHolding(events, key) == Some(events[i])
  {
    if i > 0 {
      FirstHoldingIsFirst(events[1..], key, i - 1);
    }
  }

  /** `get_event_containing_note` with markers skipped. */
  function EventContainingNote(score: Score, key: ItemKey): Option<Event> {
    FirstHolding(ScoreEvents(score), key)
  }

  /** `get_event_containing_note`: the first event, in scan order, holding the item. */
  method GetEventContainingNote(score: Score, key: ItemKey) returns (r: Option<Event>)
    ensures r == EventContainingNote(score, key)
  {
    var events := ScoreEvents(score);
    var i := 0;
    while i < |events|
      invariant 0 <= i <= |events|
      invariant forall j :: 0 <= j < i ==> !Holds(events[j], key)
    {
      var items := events[i].eventItems;
      var k := 0;
      while k < |items|
        invariant 0 <= k <= |items|
        invariant forall m :: 0 <= m < k ==> Key(items[m]) != key
      {
        if Key(items[k]) == key {
          FirstHoldingIsFirst(events, key, i);
          return Some(events[i]);
        }
        k := k + 1;
      }
      i := i + 1;
    }
    return None;
  }

  /** How the location scan of one sequence ends: at the target, after it without finding
      it, or on an event without a fraction, where `metrical_pos += None` raises. */
  datatype Scan = Found(pos: Frac) | Passed | Stuck

  function PositionIn(events: seq<Event>, target: Option<nat>, pos: Frac): Scan {
    if events == [] then Passed
    else if Some(events[0].id) == target then Found(pos)
    else match events[0].duration.frac
      case None => Stuck
      case Some(f) => PositionIn(events[1..], target, Add(pos, f))
  }

  /** The scan over runs `i` onwards: the first run whose scan stops decides. */
  function LocationFrom(runs: seq<Run>, i: nat, target: Option<nat>): Result<string>
    requires i <= |runs|
    decreases |runs| - i
  {
    if i == |runs| then Ok("")
    else
      var scan := PositionIn(IterEvents(runs[i].items), target, FromInt(0));
      if scan.Passed? then LocationFrom(runs, i + 1, target) else ScanOutcome(runs[i], scan)
  }

  /** What a scan that stopped in a run returns: the location string, or the TypeError. */
  function ScanOutcome(run: Run, scan: Scan): Result<string>
    requires !scan.Passed?
  {
    match scan
    case Found(pos) => Ok(LocationString(run.barIndex, pos))
    case Stuck => Err(InternalError("TypeError: unsupported operand type(s) for +=: 'Fraction' and 'NoneType'"))
  }

  /** `f'{bar_idx+1}:{n}/{d}'`. */
  function LocationString(barIndex: nat, pos: Frac): string {
    NatToString(barIndex + 1) + ":" + IntToString(pos.num) + "/" + IntToString(pos.den)
  }

  /** `get_event_measure_location` for the event `target`; None stands for a missing
      event, which the scan never meets. */
  function MeasureLocation(score: Score, target: Option<nat>): Result<string> {
    LocationFrom(Runs(score), 0, target)
  }

  /** `get_event_measure_location`: for each sequence in scan order, sum the fractions of the
      events met before the target. */
  method GetEventMeasureLocation(score: Score, target: Option<nat>) returns (r: Result<string>)
    ensures r == MeasureLocation(score, target)
  {
    r := LocateInRuns(Runs(score), target);
  }

  /** The outer loop of `get_event_measure_location`, over the sequences in scan order. */
  method LocateInRuns(runs: seq<Run>, target: Option<nat>) returns (r: Result<string>)
    ensures r == LocationFrom(runs, 0, target)
  {
    var i := 0;
    while i < |runs|
      invariant 0 <= i <= |runs|
      invariant LocationFrom(runs, 0, target) == LocationFrom(runs, i, target)
    {
      var scan := ScanPosition(IterEvents(runs[i].items), target);
      LocationFromStep(runs, i, target, scan);
      if !scan.Passed? {
        return ScanOutcome(runs[i], scan);
      }
      i := i + 1;
    }
    return Ok("");
  }

  lemma LocationFromStep(runs: seq<Run>, i: nat, target: Option<nat>, scan: Scan)
    requires i < |runs| && scan == PositionIn(IterEvents(runs[i].items), target, FromInt(0))
    ensures LocationFrom(runs, i, target) ==
      if scan.Passed? then LocationFrom(runs, i + 1, target) else ScanOutcome(runs[i], scan)
  {
  }

  /** The inner loop of `get_event_measure_location` over the events of one sequence. */
  method ScanPosition(events: seq<Event>, target: Option<nat>) returns (s: Scan)
    ensures s == PositionIn(events, target, FromInt(0))
  {
    var pos := FromInt(0);
    var k := 0;
    while k < |events|
      invariant 0 <= k <= |events|
      invariant PositionIn(events, target, FromInt(0)) == PositionIn(events[k..], target, pos)
    {
      assert events[k..][0] == events[k] && events[k..][1..] == events[k + 1..];
      if Some(events[k].id) == target {
        return Found(pos);
      }
      match events[k].duration.frac
      case None =>
        return Stuck;
      case Some(f) =>
        pos := Add(pos, f);
      k := k + 1;
    }
    assert events[k..] == [];
    return Passed;
  }

  /** The unreduced sum `start + f0 + ... + f(k-1)` of the first `k` fractions. */
  function DurationSum(start: Frac, events: seq<Event>, k: nat): Frac
    requires k <= |events|
    requires forall j :: 0 <= j < k ==> events[j].duration.frac.Some?
  {
    if k == 0 then start else RawAdd(DurationSum(start, events, k - 1), events[k - 1].duration.frac.value)
  }

  lemma {:induction false} DurationSumShift(start: Frac, f: Frac, events: seq<Event>, k: nat)
    requires 0 < k <= |events| && events[0].duration.frac == Some(f)
    requires forall j :: 0 <= j < k ==> events[j].duration.frac.Some?
    ensures SameValue(DurationSum(RawAdd(start, f), events[1..], k - 1), DurationSum(start, events, k))
      && DurationSum(RawAdd(start, f), events[1..], k - 1) == DurationSum(start, events, k)
  {
    if k > 1 {
      DurationSumShift(start, f, events, k - 1);
    }
  }

  /** The location scan finds the target at index `k` of its sequence with a position that
      is in lowest terms and equals the sum of the fractions of the events before it. */
  lemma {:induction false} PositionIsReducedSum(events: seq<Event>, target: nat, pos: Frac, ref: Frac, k: nat)
    requires k < |events| && events[k].id == target
    requires forall j :: 0 <= j < k ==> events[j].id != target && events[j].duration.frac.Some?
    requires SameValue(pos, ref) && (Canonical(pos) || k > 0)
    ensures PositionIn(events, Some(target), pos).Found?
    ensures var p := PositionIn(events, Some(target), pos).pos;
      (Canonical(p) || p == pos) && SameValue(p, DurationSum(ref, events, k))
  {
    if k > 0 {
      var f := events[0].duration.frac.value;
      AddRespectsValue(pos, ref, f);
      PositionIsReducedSum(events[1..], target, Add(pos, f), RawAdd(ref, f), k - 1);
      DurationSumShift(ref, f, events, k);
    }
  }

  /** The scan stops with a failure on the first event without a fraction met before the
      target. */
  lemma {:induction false} PositionStuckOnMissingFraction(events: seq<Event>, target: Option<nat>, pos: Frac, k: nat)
    requires k < |events| && Some(events[k].id) != target && events[k].duration.frac.None?
    requires forall j :: 0 <= j < k ==> Some(events[j].id) != target && events[j].duration.frac.Some?
    ensures PositionIn(events, target, pos) == Stuck
  {
    if k > 0 {
      PositionStuckOnMissingFraction(events[1..], target, Add(pos, events[0].duration.frac.value), k - 1);
    }
  }

  // ---------------------------------------------------------------------------------------
  // In-place updates of events reached through the graph, modelled as maps over the value

  function MapItem(item: Item, f: Event -> Event): Item
    decreases item, 1
  {
    match item
    case EventEntry(e) => EventEntry(f(e))
    case Tuplet(inner, ratio) => Tuplet(MapItems(inner, f), ratio)
    case OctaveShift(t, p) => item
  }

  function MapItems(items: seq<Item>, f: Event -> Event): (r: seq<Item>)
    ensures |r| == |items|
    decreases items, 0
  {
    if items == [] then [] else [MapItem(items[0], f)] + MapItems(items[1..], f)
  }

  function MapEvents(events: seq<Event>, f: Event -> Event): (r: seq<Event>)
    ensures |r| == |events| && forall i :: 0 <= i < |events| ==> r[i] == f(events[i])
  {
    if events == [] then [] else [f(events[0])] + MapEvents(events[1..], f)
  }

  lemma {:induction false} MapEventsAppend(a: seq<Event>, b: seq<Event>, f: Event -> Event)
    ensures MapEvents(a + b, f) == MapEvents(a, f) + MapEvents(b, f)
  {
  }

  /** Updating events through the graph changes each event in place: the depth-first
      event list afterwards is the old one with every event updated, in the same order. */
  lemma {:induction false} MapItemsUpdatesEvents(items: seq<Item>, f: Event -> Event)
    ensures IterEvents(MapItems(items, f)) == MapEvents(IterEvents(items), f)
    decreases items
  {
    if items != [] {
      MapItemsUpdatesEvents(items[1..], f);
      match items[0]
      case EventEntry(e) =>
      case Tuplet(inner, ratio) =>
        MapItemsUpdatesEvents(inner, f);
      case OctaveShift(_, _) =>
      MapEventsAppend(ItemEvents(items[0]), IterEvents(items[1..]), f);
    }
  }

  function MapSequences(seqs: seq<Sequence>, g: seq<Item> -> seq<Item>): (r: seq<Sequence>)
    ensures |r| == |seqs|
    ensures forall i :: 0 <= i < |seqs| ==> r[i] == seqs[i].(items := g(seqs[i].items))
  {
    if seqs == [] then [] else [seqs[0].(items := g(seqs[0].items))] + MapSequences(seqs[1..], g)
  }

  function MapBarPart(bp: BarPart, g: seq<Item> -> seq<Item>): BarPart {
    bp.(sequences := MapSequences(bp.sequences, g))
  }

  function MapBarParts(parts: seq<(string, BarPart)>, g: seq<Item> -> seq<Item>): (r: seq<(string, BarPart)>)
    ensures |r| == |parts|
    ensures forall i :: 0 <= i < |parts| ==> r[i] == (parts[i].0, MapBarPart(parts[i].1, g))
  {
    if parts == [] then [] else [(parts[0].0, MapBarPart(parts[0].1, g))] + MapBarParts(parts[1..], g)
  }

  function MapBars(bars: seq<Bar>, g: seq<Item> -> seq<Item>): (r: seq<Bar>)
    ensures |r| == |bars|
    ensures forall i :: 0 <= i < |bars| ==> r[i] == bars[i].(barParts := MapBarParts(bars[i].barParts, g))
  {
    if bars == [] then [] else [bars[0].(barParts := MapBarParts(bars[0].barParts, g))] + MapBars(bars[1..], g)
  }

  /** Apply `g` to the item list of every sequence of the score; the bars' own fields, the
      bar-part keys and the sequence ids are untouched. */
  function MapScore(score: Score, g: seq<Item> -> seq<Item>): (r: Score)
    ensures r.parts == score.parts && |r.bars| == |score.bars|
  {
    score.(bars := MapBars(score.bars, g))
  }

  /** The rewrite of one item list that updates each of its events with `f`. */
  function EventUpdate(f: Event -> Event): seq<Item> -> seq<Item> {
    items => MapItems(items, f)
  }

  function UpdateEvents(score: Score, f: Event -> Event): Score {
    MapScore(score, EventUpdate(f))
  }

  /** The rewrite of one item list that inserts the marker `x` before the event `id`. */
  function MarkerInsertion(id: nat, x: Item): seq<Item> -> seq<Item> {
    items => InsertBeforeEvent(items, id, x)
  }

  /** `start_event.slurs.append(slur)`. */
  function AppendSlur(id: nat, slur: Slur): Event -> Event {
    (e: Event) => if e.id == id then e.(slurs := e.slurs + [slur]) else e
  }

  /** `end_event.slur_ends.append(start_event.event_id)`. */
  function AppendSlurEnd(id: nat, startId: nat): Event -> Event {
    (e: Event) => if e.id == id then e.(slurEnds := e.slurEnds + [startId]) else e
  }

  function MapNotes(items: seq<EventItem>, serial: nat, h: Note -> Note): (r: seq<EventItem>)
    ensures |r| == |items|
    ensures forall i :: 0 <= i < |items| ==>
      r[i] == (if items[i].NoteItem? && items[i].note.serial == serial then NoteItem(h(items[i].note)) else items[i])
  {
    if items == [] then []
    else
      var first := match items[0]
        case NoteItem(n) => if n.serial == serial then NoteItem(h(n)) else items[0]
        case RestItem(_) => items[0];
      [first] + MapNotes(items[1..], serial, h)
  }

  /** `start_note.tie_end_note = note.note_id` for the Note object of element `serial`. */
  function SetTieEnd(serial: nat, endNumber: nat): Event -> Event {
    (e: Event) => e.(eventItems := MapNotes(e.eventItems, serial, (n: Note) => n.(tieEndNote := Some(endNumber))))
  }

  /** `note.is_referenced = True` for the Note object of element `serial`. */
  function MarkReferenced(serial: nat): Event -> Event {
    (e: Event) => e.(eventItems := MapNotes(e.eventItems, serial, (n: Note) => n.(isReferenced := true)))
  }

  /** Where `partId` first appears among the keys, or the number of keys when it does not. */
  function PartIndex(parts: seq<(string, BarPart)>, partId: string): (i: nat)
    ensures i <= |parts|
    ensures forall j :: 0 <= j < i ==> parts[j].0 != partId
    ensures i < |parts| ==> parts[i].0 == partId
  {
    if parts == [] then 0
    else if parts[0].0 == partId then 0
    else 1 + PartIndex(parts[1..], partId)
  }

  /** `bar.bar_parts[part_id] = bar_part`: an existing key keeps its place in the dict,
      a new key goes last. */
  function SetBarPart(parts: seq<(string, BarPart)>, partId: string, bp: BarPart): (r: seq<(string, BarPart)>)
    ensures var i := PartIndex(parts, partId);
      r == if i < |parts| then parts[i := (partId, bp)] else parts + [(partId, bp)]
  {
    if parts == [] then [(partId, bp)]
    else if parts[0].0 == partId then [(partId, bp)] + parts[1..]
    else [parts[0]] + SetBarPart(parts[1..], partId, bp)
  }

  /** The bar part stored under `partId`, as `bar.bar_parts[part_id]` reads it. */
  function LookupBarPart(parts: seq<(string, BarPart)>, partId: string): (r: Option<BarPart>)
    ensures r.None? <==> forall i :: 0 <= i < |parts| ==> parts[i].0 != partId
    ensures r.Some? ==> exists i :: 0 <= i < |parts| && parts[i] == (partId, r.value) &&
                                    forall j :: 0 <= j < i ==> parts[j].0 != partId
  {
    if parts == [] then None
    else if parts[0].0 == partId then Some(parts[0].1)
    else LookupBarPart(parts[1..], partId)
  }

  /** The scan order of a score whose item lists were all rewritten by `g`: the same runs
      with their items rewritten. */
  function MapRuns(runs: seq<Run>, g: seq<Item> -> seq<Item>): (r: seq<Run>)
    ensures |r| == |runs|
    ensures forall i :: 0 <= i < |runs| ==> r[i] == Run(runs[i].barIndex, g(runs[i].items))
  {
    if runs == [] then [] else [Run(runs[0].barIndex, g(runs[0].items))] + MapRuns(runs[1..], g)
  }

  lemma {:induction false} SequenceRunsOfMap(seqs: seq<Sequence>, barIndex: nat, g: seq<Item> -> seq<Item>)
    ensures SequenceRuns(MapSequences(seqs, g), barIndex) == MapRuns(SequenceRuns(seqs, barIndex), g)
  {
    if seqs != [] {
      assert MapSequences(seqs, g)[1..] == MapSequences(seqs[1..], g);
      SequenceRunsOfMap(seqs[1..], barIndex, g);
    }
  }

  lemma {:induction false} PartRunsOfMap(parts: seq<(string, BarPart)>, barIndex: nat, g: seq<Item> -> seq<Item>)
    ensures PartRuns(MapBarParts(parts, g), barIndex) == MapRuns(PartRuns(parts, barIndex), g)
  {
    if parts != [] {
      assert MapBarParts(parts, g)[1..] == MapBarParts(parts[1..], g);
      SequenceRunsOfMap(parts[0].1.sequences, barIndex, g);
      PartRunsOfMap(parts[1..], barIndex, g);
    }
  }

  lemma {:induction false} BarRunsOfMap(bars: seq<Bar>, from: nat, g: seq<Item> -> seq<Item>)
    ensures BarRuns(MapBars(bars, g), from) == MapRuns(BarRuns(bars, from), g)
    decreases |bars|
  {
    if bars != [] {
      assert MapBars(bars, g)[1..] == MapBars(bars[1..], g);
      PartRunsOfMap(bars[0].barParts, from, g);
      BarRunsOfMap(bars[1..], from + 1, g);
    }
  }

  lemma {:induction false} RunEventsOfUpdate(runs: seq<Run>, f: Event -> Event)
    ensures RunEvents(MapRuns(runs, EventUpdate(f))) == MapEvents(RunEvents(runs), f)
  {
    if runs != [] {
      assert MapRuns(runs, EventUpdate(f))[1..] == MapRuns(runs[1..], EventUpdate(f));
      RunEventsOfUpdate(runs[1..], f);
      MapItemsUpdatesEvents(runs[0].items, f);
      MapEventsAppend(IterEvents(runs[0].items), RunEvents(runs[1..]), f);
    }
  }

  lemma {:induction false} RunEventsOfInsertion(runs: seq<Run>, id: nat, shiftType: int, endPos: string)
    ensures RunEvents(MapRuns(runs, MarkerInsertion(id, OctaveShift(shiftType, endPos)))) == RunEvents(runs)
  {
    if runs != [] {
      var g := MarkerInsertion(id, OctaveShift(shiftType, endPos));
      assert MapRuns(runs, g)[1..] == MapRuns(runs[1..], g);
      RunEventsOfInsertion(runs[1..], id, shiftType, endPos);
      InsertMarkerKeepsEvents(runs[0].items, id, shiftType, endPos);
    }
  }

  /** Updating events through the whole score keeps the scan order: the score's events
      afterwards are the old ones, each updated, in the same order. */
  lemma ScoreEventsOfUpdate(score: Score, f: Event -> Event)
    ensures ScoreEvents(UpdateEvents(score, f)) == MapEvents(ScoreEvents(score), f)
  {
    BarRunsOfMap(score.bars, 0, EventUpdate(f));
    RunEventsOfUpdate(Runs(score), f);
  }

  /** Inserting an octave-shift marker anywhere in the score leaves its events and their
      scan order unchanged. */
  lemma ScoreEventsOfInsertion(score: Score, id: nat, shiftType: int, endPos: string)
    ensures ScoreEvents(MapScore(score, MarkerInsertion(id, OctaveShift(shiftType, endPos)))) == ScoreEvents(score)
  {
    BarRunsOfMap(score.bars, 0, MarkerInsertion(id, OctaveShift(shiftType, endPos)));
    RunEventsOfInsertion(Runs(score), id, shiftType, endPos);
  }

  /** `f` edits events in place: it keeps each event's id and the identities of its items. */
  ghost predicate InPlace(f: Event -> Event) {
    forall e: Event :: f(e).id == e.id && ItemKeys(f(e).eventItems) == ItemKeys(e.eventItems)
  }

  lemma {:induction false} FirstHoldingOfMap(events: seq<Event>, f: Event -> Event, key: ItemKey)
    requires InPlace(f)
    ensures FirstHolding(MapEvents(events, f), key) ==
      match FirstHolding(events, key) case None => None case Some(e) => Some(f(e))
  {
    if events != [] {
      assert MapEvents(events, f)[1..] == MapEvents(events[1..], f);
      assert Holds(f(events[0]), key) == Holds(events[0], key);
      FirstHoldingOfMap(events[1..], f, key);
    }
  }

  /** After an in-place update, a note is found in the updated form of the event that held
      it before. */
  lemma ContainingAfterUpdate(score: Score, f: Event -> Event, key: ItemKey)
    requires InPlace(f)
    ensures EventContainingNote(UpdateEvents(score, f), key) ==
      match EventContainingNote(score, key) case None => None case Some(e) => Some(f(e))
  {
    ScoreEventsOfUpdate(score, f);
    FirstHoldingOfMap(ScoreEvents(score), f, key);
  }

  lemma ItemKeysOfMapNotes(items: seq<EventItem>, serial: nat, h: Note -> Note)
    requires forall n: Note :: h(n).serial == n.serial
    ensures ItemKeys(MapNotes(items, serial, h)) == ItemKeys(items)
  {
  }

  /** The slur and tie edits of the reader are in-place edits. */
  lemma SlurAndTieEditsInPlace(id: nat, startId: nat, slur: Slur, serial: nat, number: nat)
    ensures InPlace(AppendSlur(id, slur)) && InPlace(AppendSlurEnd(id, startId))
    ensures InPlace(SetTieEnd(serial, number)) && InPlace(MarkReferenced(serial))
  {
    forall e: Event
      ensures ItemKeys(SetTieEnd(serial, number)(e).eventItems) == ItemKeys(e.eventItems)
      ensures ItemKeys(MarkReferenced(serial)(e).eventItems) == ItemKeys(e.eventItems)
    {
      ItemKeysOfMapNotes(e.eventItems, serial, (n: Note) => n.(tieEndNote := Some(number)));
      ItemKeysOfMapNotes(e.eventItems, serial, (n: Note) => n.(isReferenced := true));
    }
  }

  /** Storing under a key and reading it back gives the stored bar part. */
  lemma {:induction false} LookupAfterSet(parts: seq<(string, BarPart)>, partId: string, bp: BarPart)
    ensures LookupBarPart(SetBarPart(parts, partId, bp), partId) == Some(bp)
  {
    if parts != [] && parts[0].0 != partId {
      LookupAfterSet(parts[1..], partId, bp);
    }
  }

  // ---------------------------------------------------------------------------------------
  // The source's own iteration, which has no case for marker items

  /** The events an iteration yields before it stops, and whether it stopped on an
      exception. */
  datatype Walk = Walk(events: seq<Event>, crashed: bool)

  /** `item.iter_events()` as written, for an item that is not an Event: an OctaveShift has
      no such method, so the call raises AttributeError. */
  function ItemWalk(item: Item): Walk
    decreases item, 1
  {
    match item
    case EventEntry(e) => Walk([e], false)
    case Tuplet(inner, _) => WalkAsWritten(inner)
    case OctaveShift(_, _) => Walk([], true)
  }

  /** `SequenceContent.iter_events` as written. */
  function WalkAsWritten(items: seq<Item>): Walk
    decreases items, 0
  {
    if items == [] then Walk([], false)
    else
      var w := ItemWalk(items[0]);
      if w.crashed then w
      else
        var rest := WalkAsWritten(items[1..]);
        Walk(w.events + rest.events, rest.crashed)
  }

  predicate ItemHasMarker(item: Item)
    decreases item, 1
  {
    match item
    case EventEntry(_) => false
    case Tuplet(inner, _) => HasMarker(inner)
    case OctaveShift(_, _) => true
  }

  predicate HasMarker(items: seq<Item>)
    decreases items, 0
  {
    items != [] && (ItemHasMarker(items[0]) || HasMarker(items[1..]))
  }

  /** The source's iteration yields a prefix of the corrected one, fails exactly when a
      marker is reached, and agrees with the corrected one on lists without markers. */
  lemma {:induction false} WalkIsPrefix(items: seq<Item>)
    ensures var w := WalkAsWritten(items);
      && w.events <= IterEvents(items)
      && (w.crashed <==> HasMarker(items))
      && (!w.crashed ==> w.events == IterEvents(items))
    decreases items, 0
  {
    if items != [] {
      ItemWalkIsPrefix(items[0]);
      WalkIsPrefix(items[1..]);
    }
  }

  lemma {:induction false} ItemWalkIsPrefix(item: Item)
    ensures var w := ItemWalk(item);
      && w.events <= ItemEvents(item)
      && (w.crashed <==> ItemHasMarker(item))
      && (!w.crashed ==> w.events == ItemEvents(item))
    decreases item, 1
  {
    match item
    case EventEntry(_) =>
    case Tuplet(inner, _) => WalkIsPrefix(inner);
    case OctaveShift(_, _) =>
  }

  function ContainingAsWritten(runs: seq<Run>, key: ItemKey): Result<Option<Event>> {
    if runs == [] then Ok(None)
    else
      var w := WalkAsWritten(runs[0].items);
      match FirstHolding(w.events, key)
      case Some(e) => Ok(Some(e))
      case None =>
        if w.crashed then Err(InternalError("AttributeError: 'OctaveShift' object has no attribute 'iter_events'"))
        else ContainingAsWritten(runs[1..], key)
  }

  /** `get_event_containing_note` as written: the scan fails on the first marker it reaches
      before finding the note. */
  function EventContainingNoteAsWritten(score: Score, key: ItemKey): Result<Option<Event>> {
    ContainingAsWritten(Runs(score), key)
  }

  /** An 8va marker inserted before the first event of bar 1 makes every later lookup of a
      note in bar 2 fail, where the corrected scan finds it. */
  lemma OctaveShiftBreaksLaterLookups()
    ensures var e1 := Event(1, RhythmicDuration(Some(Rational(1, 4)), 0),
                            [NoteItem(Note(0, 1, Pitch("C", 4, 0), None, None, false))], [], []);
      var e2 := Event(2, RhythmicDuration(Some(Rational(1, 4)), 0),
                      [NoteItem(Note(1, 2, Pitch("D", 4, 0), None, None, false))], [], []);
      var bar1 := NewBar().(barParts := [("P1", BarPart([Sequence("1", [OctaveShift(TYPE_8VA, "1:0/1"), EventEntry(e1)])], []))]);
      var bar2 := NewBar().(barParts := [("P1", BarPart([Sequence("1", [EventEntry(e2)])], []))]);
      var score := Score([Part("P1", None)], [bar1, bar2]);
      && EventContainingNoteAsWritten(score, NoteKey(1)).Err?
      && EventContainingNote(score, NoteKey(1)) == Some(e2)
  {
    var e1 := Event(1, RhythmicDuration(Some(Rational(1, 4)), 0),
                    [NoteItem(Note(0, 1, Pitch("C", 4, 0), None, None, false))], [], []);
    var e2 := Event(2, RhythmicDuration(Some(Rational(1, 4)), 0),
                    [NoteItem(Note(1, 2, Pitch("D", 4, 0), None, None, false))], [], []);
    var bar1 := NewBar().(barParts := [("P1", BarPart([Sequence("1", [OctaveShift(TYPE_8VA, "1:0/1"), EventEntry(e1)])], []))]);
    var bar2 := NewBar().(barParts := [("P1", BarPart([Sequence("1", [EventEntry(e2)])], []))]);
    var score := Score([Part("P1", None)], [bar1, bar2]);
    var items1 := [OctaveShift(TYPE_8VA, "1:0/1"), EventEntry(e1)];
    var items2 := [EventEntry(e2)];
    assert Runs(score) == [Run(0, items1), Run(1, items2)] by {
      assert SequenceRuns(bar1.barParts[0].1.sequences, 0) == [Run(0, items1)];
      assert PartRuns(bar1.barParts, 0) == [Run(0, items1)];
      assert SequenceRuns(bar2.barParts[0].1.sequences, 1) == [Run(1, items2)];
      assert PartRuns(bar2.barParts, 1) == [Run(1, items2)];
      assert BarRuns([bar2], 1) == [Run(1, items2)];
    }
    assert WalkAsWritten(items1) == Walk([], true);
    assert IterEvents(items1) == [e1] by {
      assert IterEvents(items1[1..]) == [e1];
    }
    assert IterEvents(items2) == [e2];
    assert ScoreEvents(score) == [e1, e2] by {
      assert RunEvents([Run(1, items2)]) == [e2];
    }
    assert !Holds(e1, NoteKey(1));
    assert Holds(e2, NoteKey(1));
    FirstHoldingIsFirst([e1, e2], NoteKey(1), 1);
  }
}
