# mnxconverter core in Dafny

This project models the core of mnxconverter, a converter from MusicXML to the MNX
music notation formats. It covers four parts of the program:

- **The score graph** (`mnxconverter/score.py`) becomes the value model in `score.dfy`:
  bars, bar parts, sequences, tuplets, events, notes, slurs and octave-shift markers. It
  includes the queries the converter runs over the graph:
  - the depth-first event walk;
  - item lookup by event;
  - folding a run of items into a tuplet;
  - inserting a marker before an event;
  - the active key;
  - the time and key change tests;
  - the event containing a note;
  - the measure location of an event.
- **The MusicXML reader** (`mnxconverter/musicxml.py`) is the class
  `MusicXmlReading.MusicXmlReader`. Its fields are the reader's bookkeeping: divisions,
  open ties, beams, tuplets, slurs, the octave shift and the id counters. It walks a
  timewise document, modelled as an element tree, and builds the score.
  - `musicxml_fields.dfy` holds the import tables and the parsers of single elements.
  - `musicxml_markers.dfy` holds the records the reader keeps and the functions that
    specify its transitions.
- **The MNX-Common writer** (`mnxconverter/mnx_common.py`) is modelled in
  `mnx_common.dfy`. It writes the score as an abstract XML tree, and holds the
  micro-syntax encoders (time and key signatures, durations, pitches, accidentals, slur
  sides, octave shifts) and the export tables.
- **The MNX JSON writer** (`mnxconverter/mnx.py`) is modelled in `mnx.dfy`. It writes the
  score as a JSON value. JSON objects are maps, because the program dumps them with
  sorted keys.

Python's `Fraction` becomes `fractions.dfy`: fractions are reduced to lowest terms and
compared by value. `int()`, `str()`, `str.strip`, `str.isdigit` and `re.split(r'[\s,]+')`
become `text.dfy`, restricted to ASCII digits and Latin-1 whitespace.

Each operation has a partner property:
- The micro-syntax encoders are read back by parsers (for example, a duration string
  reads back as its reduced fraction and dots).
- The lookups and scans loop as the source does, and are proved equal to a specification
  function whose meaning is stated (the first matching index, the nearest key signature,
  the reduced sum of the durations before an event).
- The graph edits the reader makes are proved to keep every event and its order.
- The two writers are proved to agree: the same slurs, in the same order and with the same
  entries, and the same measure header directions.

Event identity is the event's id. Each reader edit is modelled as a rewrite of the
score value at that id. Element identity is the serial of its `<note>` element.

The reader and the lookups run the corrected behaviour of the two findings below. A
`<score-part>` without an id is the "missing 'id'" data error (the source raises an
uncaught KeyError). The score walk skips octave-shift markers (the source raises
AttributeError on them). Each finding also keeps a member for the code as written.

## Model

| member | source | states |
|---|---|---|
| `Fractions.Reduce` | mnxconverter/musicxml.py:659 | A reduced fraction is in lowest terms with a positive denominator, and has the same value as n/d. |
| `Fractions.ReducedIsCoprime` | mnxconverter/musicxml.py:659 | Dividing numerator and denominator by their gcd leaves them coprime. |
| `Fractions.Add` | mnxconverter/score.py:22 | The sum of two fractions is in lowest terms and equals a/b + c/d by cross-multiplication. |
| `Fractions.AddRespectsValue` | mnxconverter/score.py:22 | Adding to fractions of equal value gives sums of equal value. |
| `Text.NatToString` | mnxconverter/musicxml.py:492 | The decimal form of a natural is a digit string that reads back as the number, without a leading zero. |
| `Text.IntToString` | mnxconverter/mnx_common.py:226 | `str(int)` ends in a digit and starts with '-' exactly for negative numbers. |
| `Text.ParseIntOfIntToString` | mnxconverter/musicxml.py:415 | `int(str(i)) == i` for every integer. |
| `Text.ParseIntOfDigits` | mnxconverter/musicxml.py:634-636 | `int()` of a string of ASCII digits is its decimal value. |
| `Text.SplitOnSeparators` | mnxconverter/musicxml.py:356 | Splitting on runs of whitespace and commas gives separator-free pieces that, interleaved with the separator runs of the input in order, rebuild the input exactly. Only the first and last piece can be empty. |
| `Text.Strip` | mnxconverter/musicxml.py:356 | `strip()` gives a slice of the input with only spaces before and after it, and no space at either end. |
| `MusicXmlTree.FindChild` | mnxconverter/musicxml.py:223 | `find(tag)` gives the first child with that tag, and None exactly when no child has it. |
| `MusicXmlTree.IndexOfTag` | mnxconverter/musicxml.py:366 | The index of the first child with a tag; None exactly when there is none. |
| `MusicXmlTree.ChildrenWithTag` | mnxconverter/musicxml.py:245 | `iterfind(tag)` keeps only children with that tag, and all of them when all have it. |
| `MusicXmlTree.ChildrenWithTagMembers` | mnxconverter/musicxml.py:245 | Every match is a child, and every child with the tag is matched. |
| `MusicXmlTree.ChildrenWithTagCounts` | mnxconverter/musicxml.py:245 | Each child with the tag is matched as often as it occurs, and nothing else is. |
| `MusicXmlTree.ChildrenWithTagAppend` | mnxconverter/musicxml.py:245 | Document order is kept: the matches of a + b are those of a, then those of b. |
| `MusicXmlTree.FoldChildrenStep` | mnxconverter/musicxml.py:297-307 | A loop over children is one step per child: the state after child i is the step applied to the state before it. |
| `ScoreModel.SameDurationIsEquivalence` | mnxconverter/score.py:276-277 | Duration equality, which compares fractions by value, is reflexive, symmetric and transitive. |
| `ScoreModel.IterEventsAppend` | mnxconverter/score.py:123-129 | The event walk of two item lists joined is the two walks joined. |
| `ScoreModel.IterEventsOfFold` | mnxconverter/score.py:123-129 | Wrapping items in a tuplet does not change the event walk. |
| `ScoreModel.IterEventsHasEvent` | mnxconverter/score.py:123-129 | The walk holds an event id exactly when some top-level item is, or contains, that event. |
| `ScoreModel.FirstItemWithEvent` | mnxconverter/score.py:131-140 | The smallest top-level index whose item is or contains the target. No earlier item does. None exactly when no item does. |
| `ScoreModel.FindItemIdxByEvent` | mnxconverter/score.py:131-140 | The loop returns exactly the first index holding the event. |
| `ScoreModel.FoldItems` | mnxconverter/score.py:142-155 | An empty list is an IndexError. Not finding either end is an error. Otherwise the items from the first end through the last become one tuplet, with Python's slice bounds when the last end lies before the first. |
| `ScoreModel.FoldKeepsEventOrder` | mnxconverter/score.py:157-163 | Folding a forward run into a tuplet keeps every event in the same depth-first order. |
| `ScoreModel.InsertBeforeEvent` | mnxconverter/score.py:109-112 | Inserting before an event that is not found leaves the items unchanged. |
| `ScoreModel.InsertBeforeShiftsRight` | mnxconverter/score.py:109-112 | The new item takes the event's index, the items before it are unchanged, and the items from the event on move right by one. |
| `ScoreModel.InsertMarkerKeepsEvents` | mnxconverter/score.py:109-112 | Inserting an octave-shift marker changes no event and no event order. |
| `ScoreModel.MarkerAddsNoEvents` | mnxconverter/score.py:205-220 | An octave-shift marker contributes no events to the walk. |
| `ScoreModel.GetSequence` | mnxconverter/score.py:83-87 | The index of the first sequence with the id. No earlier one has it. None exactly when none has it. |
| `ScoreModel.GetOrCreateSequence` | mnxconverter/score.py:89-94 | An existing sequence is found and the bar part is unchanged. Otherwise an empty sequence with the id is appended and its index returned. |
| `ScoreModel.GetLastEvent` | mnxconverter/score.py:170-174 | The last top-level item that is an event. No later item is one. None exactly when there is none. |
| `ScoreModel.EffectiveKeyIsNearest` | mnxconverter/score.py:59-72 | The active key is the key of the nearest bar at or before the index that has one. Without one it is the default of 0. |
| `ScoreModel.ActiveKeysig` | mnxconverter/score.py:59-72 | The backward loop returns the active key. |
| `ScoreModel.KeysigChanged` | mnxconverter/score.py:74-76 | The first bar always counts as a change. A bar without a key of its own never does. A bar with a key counts exactly when it differs from the previous bar's active key. |
| `ScoreModel.TimesigChanged` | mnxconverter/score.py:55-57 | The first bar counts as a change. Equal signatures are not a change. Losing the signature is one. |
| `ScoreModel.FirstHolding` | mnxconverter/score.py:25-33 | The event found holds the item and is in the list. None exactly when no event holds it. |
| `ScoreModel.FirstHoldingIsFirst` | mnxconverter/score.py:25-33 | The event found is the one at the first index that holds the item. |
| `ScoreModel.GetEventContainingNote` | mnxconverter/score.py:25-33 | The nested loops return the first event, in scan order, that holds the note. |
| `ScoreModel.GetEventMeasureLocation` | mnxconverter/score.py:10-23 | The loops return the measure location the scan specifies. This includes the empty string when the event is absent, and the TypeError of adding a missing fraction. |
| `ScoreModel.LocateInRuns` | mnxconverter/score.py:15-23 | The loop over the sequences in scan order equals the run-by-run specification. |
| `ScoreModel.LocationFromStep` | mnxconverter/score.py:15-23 | One sequence of the scan either passes the event on to the next sequence or decides the result. |
| `ScoreModel.ScanPosition` | mnxconverter/score.py:18-22 | The loop over one sequence's events equals the position scan. |
| `ScoreModel.PositionIsReducedSum` | mnxconverter/score.py:18-22 | At the target, the position is the sum of the durations before it, in lowest terms. |
| `ScoreModel.PositionStuckOnMissingFraction` | mnxconverter/score.py:22 | An event without a fraction before the target stops the scan with the TypeError. |
| `ScoreModel.MapItemsUpdatesEvents` | mnxconverter/musicxml.py:689 | Editing events in place edits the walk pointwise and adds or drops none. |
| `ScoreModel.ScoreEventsOfUpdate` | mnxconverter/musicxml.py:699 | An in-place event edit over the whole score edits each event of the scan pointwise. |
| `ScoreModel.ScoreEventsOfInsertion` | mnxconverter/musicxml.py:710-714 | Inserting an octave-shift marker anywhere in the score keeps the scan's events. |
| `ScoreModel.ContainingAfterUpdate` | mnxconverter/musicxml.py:672-673 | After an in-place edit, the event containing a note is the edited version of the one before. |
| `ScoreModel.FirstHoldingOfMap` | mnxconverter/musicxml.py:672-673 | An in-place edit commutes with finding the first event holding an item. |
| `ScoreModel.SlurAndTieEditsInPlace` | mnxconverter/musicxml.py:556-557 | Appending a slur, appending a slur end, setting a tie end and marking a note referenced all keep event ids and item identities. |
| `ScoreModel.SetBarPart` | mnxconverter/musicxml.py:269 | `bar_parts[part_id] = bar_part`: the entry of the first pair with that key gets the new bar part and every other entry is unchanged. A new key is appended last. |
| `ScoreModel.LookupBarPart` | mnxconverter/mnx_common.py:120 | `bar_parts[part_id]`: the bar part of the first entry with that id, and None exactly when no entry has it. |
| `ScoreModel.LookupAfterSet` | mnxconverter/musicxml.py:269 | Storing a bar part and reading it back gives the stored bar part. |
| `ScoreModel.WalkIsPrefix` | mnxconverter/score.py:123-129 | The walk as written yields a prefix of the corrected walk. It fails exactly when it meets an octave shift, and otherwise equals the corrected walk. |
| `ScoreModel.ItemWalkIsPrefix` | mnxconverter/score.py:123-129 | The same as WalkIsPrefix, for one item. |
| `ScoreModel.OctaveShiftBreaksLaterLookups` | mnxconverter/score.py:25-33 | A score with an octave shift in bar 1: looking up a note in bar 2 fails as written, and finds the event once markers are skipped. |
| `MusicXmlFields.ParseType` | mnxconverter/musicxml.py:656-661 | Succeeds exactly for a name in the rhythm table, giving its fraction in lowest terms. Otherwise a data error. |
| `MusicXmlFields.RhythmTypeValues` | mnxconverter/musicxml.py:9-29 | Every rhythm type is 2/1 or 1 over a power of two from 1 to 1024. |
| `MusicXmlFields.ParseDivisions` | mnxconverter/musicxml.py:327-331 | Succeeds exactly when the text is an integer. Other text is the data error `Invalid <divisions> value "<text>".` Missing text is the uncaught TypeError of `int(None)`. |
| `MusicXmlFields.ParseDuration` | mnxconverter/musicxml.py:406-410 | Fails exactly when the text is missing, and then only with the uncaught TypeError. Unparsable text reads as 0. |
| `MusicXmlFields.ParseForwardBackup` | mnxconverter/musicxml.py:365-369 | Without `<duration>` the move is 0. Fails exactly when the `<duration>` has no text. |
| `MusicXmlFields.ParseKey` | mnxconverter/musicxml.py:412-418 | Without `<fifths>` the key is the default 0. Fails exactly when `<fifths>` has no text, and then with the uncaught TypeError. |
| `MusicXmlFields.ParseTime` | mnxconverter/musicxml.py:420-436 | Succeeds exactly when both counts read or `symbol="common"`. Readable counts give that signature. Every failure is a data error. |
| `MusicXmlFields.CountsReadBack` | mnxconverter/musicxml.py:327-331 | `<divisions>` and `<duration>` read back any integer. A `<forward>`/`<backup>` without `<duration>` moves by 0. |
| `MusicXmlFields.KeyReadsBack` | mnxconverter/musicxml.py:412-418 | `<key>` reads back its `<fifths>`. Without `<fifths>` it reads as the default key 0. |
| `MusicXmlFields.TimeOfCounts` | mnxconverter/musicxml.py:420-436 | A `<time>` whose beats and beat type are integers reads as those two numbers. |
| `MusicXmlFields.TimeElementCounts` | mnxconverter/musicxml.py:424-428 | The beats and beat-type texts are the ones the parser finds. |
| `MusicXmlFields.ChildIntAt` | mnxconverter/musicxml.py:424 | `find` gives the text of the first child with the tag. |
| `MusicXmlFields.TimeReadsBack` | mnxconverter/musicxml.py:420-436 | A time signature written in decimals reads back as itself. |
| `MusicXmlFields.CommonTimeFallback` | mnxconverter/musicxml.py:431-435 | An unreadable count gives 4/4 under `symbol="common"`, and otherwise the "Invalid <time> element." data error. |
| `MusicXmlFields.ParseClef` | mnxconverter/musicxml.py:309-325 | The loop over the children equals the fold of the clef step. |
| `MusicXmlFields.LastText` | mnxconverter/musicxml.py:312-319 | The text of the last child with the tag that has text. None exactly when no such child has text. |
| `MusicXmlFields.ClefIsLastTexts` | mnxconverter/musicxml.py:309-325 | A clef's sign and line are the last non-empty `<sign>` and `<line>` texts. |
| `MusicXmlFields.ParsePitch` | mnxconverter/musicxml.py:602-624 | The loop over the children, with an early exit on error, equals the pitch specification. |
| `MusicXmlFields.FailedPitchStaysFailed` | mnxconverter/musicxml.py:606-617 | Once a child fails, the rest of the pitch loop keeps that failure. |
| `MusicXmlFields.PitchReadsBack` | mnxconverter/musicxml.py:602-624 | A `<pitch>` with step, alter and octave reads back as that pitch. |
| `MusicXmlFields.PitchNeedsStepAndOctave` | mnxconverter/musicxml.py:620-623 | A step or octave is only ever set by a child with that tag. |
| `MusicXmlFields.ParseTimeModification` | mnxconverter/musicxml.py:626-654 | The loop equals the time-modification specification. |
| `MusicXmlFields.ParseTimeModChild` | mnxconverter/musicxml.py:631-644 | One child is one step of the specification. |
| `MusicXmlFields.FailedTimeModStaysFailed` | mnxconverter/musicxml.py:631-644 | Once a child fails, the rest of the loop keeps that failure. |
| `MusicXmlFields.CountsFold` | mnxconverter/musicxml.py:633-640 | Digit-only actual and normal counts are read as their decimal values. |
| `MusicXmlFields.TupletRatioOfNormalType` | mnxconverter/musicxml.py:641-654 | With a `<normal-type>`, the ratio is normal*n/d outer and actual*n/d inner. |
| `MusicXmlFields.TupletRatioOfNoteType` | mnxconverter/musicxml.py:645-654 | Without one, the note's type is used. Without a type, it is the "must come after <type>" data error. |
| `MusicXmlFields.TimeModFieldsOf` | mnxconverter/musicxml.py:631-644 | The fields the loop collects from counts and an optional normal type. |
| `MusicXmlFields.TupletCountMustBeDigits` | mnxconverter/musicxml.py:634-635 | An actual-notes text that is missing or not all digits is a data error. |
| `MusicXmlFields.DigitTokens` | mnxconverter/musicxml.py:356 | The numbers kept from the pieces are never negative. |
| `MusicXmlFields.EndingNumbers` | mnxconverter/musicxml.py:356 | The ending numbers of an attribute are never negative. |
| `MusicXmlFields.ParseEnding` | mnxconverter/musicxml.py:352-363 | Only the start and stop endings change. A start ending needs a number attribute with at least one number and holds exactly those numbers. A stop ending comes only from stop or discontinue. |
| `MusicXmlFields.SplitOfJoined` | mnxconverter/musicxml.py:356 | Splitting numbers joined with commas gives their decimal forms. |
| `MusicXmlFields.DigitTokensOfNumbers` | mnxconverter/musicxml.py:356 | The decimal forms of non-negative numbers are all kept and read back. |
| `MusicXmlFields.DecimalFormReadsBack` | mnxconverter/musicxml.py:356 | The decimal form of a non-negative number passes `isdigit` and reads back. |
| `MusicXmlFields.EndingNumbersReadBack` | mnxconverter/musicxml.py:356 | The numbers of an ending, written joined by commas, read back as the same list. |
| `MusicXmlFields.ParseBarline` | mnxconverter/musicxml.py:333-350 | The loop equals the barline specification. |
| `MusicXmlFields.FailedBarlineStaysFailed` | mnxconverter/musicxml.py:339-342 | Once a repeat fails, the rest of the loop keeps that failure. |
| `MusicXmlFields.BarlineFails` | mnxconverter/musicxml.py:339-342 | A barline fails exactly when a `<repeat>` lacks its direction, and the failure is a data error. |
| `MusicXmlFields.BarlineForwardRepeat` | mnxconverter/musicxml.py:343-344 | The start-repeat flag is set exactly when it was set before or some forward repeat is present. |
| `MusicXmlFields.BarlineBackwardRepeat` | mnxconverter/musicxml.py:345-350 | The last backward repeat sets the end-repeat count. With none, the count is unchanged. |
| `MusicXmlFields.BarlineKeepsOtherFields` | mnxconverter/musicxml.py:333-350 | A barline changes only the repeat and ending fields of the bar. |
| `MusicXmlMarkers.LastWithTag` | mnxconverter/musicxml.py:449-479 | The last child with a tag, or None exactly when there is none. |
| `MusicXmlMarkers.TagStep` | mnxconverter/musicxml.py:449-479 | One more child adds one to its tag's count and becomes the last child with that tag. |
| `MusicXmlMarkers.BeamStep` | mnxconverter/musicxml.py:520-538 | A begin bumps the counter and takes the new id. A continue takes the id. An end takes the id and then bumps the counter. Anything else is no beam. |
| `MusicXmlMarkers.BeamRun` | mnxconverter/musicxml.py:520-538 | One beam answer per element. |
| `MusicXmlMarkers.ContinuesKeepId` | mnxconverter/musicxml.py:533-534 | A run of continues keeps the counter and gives every note the same id. |
| `MusicXmlMarkers.BeamGroupSharesId` | mnxconverter/musicxml.py:520-538 | The notes from a begin through its end share one id, and the next begin gets a larger one. |
| `MusicXmlMarkers.BeamRunAppend` | mnxconverter/musicxml.py:520-538 | Beam answers over joined runs are the answers over each run, with the counter carried over. |
| `MusicXmlMarkers.SlurSide` | mnxconverter/musicxml.py:571-574 | A slur has a side exactly when its placement is in the import table. |
| `MusicXmlMarkers.SlurNumberDefaults` | mnxconverter/musicxml.py:566-569 | A missing or unreadable number is 1. A decimal number reads as itself. |
| `MusicXmlMarkers.TieMatch` | mnxconverter/musicxml.py:663-668 | The first open tie that is another note with an equal pitch. Every tie before it is skipped. None exactly when all are skipped. An open tie without a pitch met first is the comparison's error. |
| `MusicXmlMarkers.TieMatchFrom` | mnxconverter/musicxml.py:663-668 | The same match, searching from an index on. |
| `MusicXmlMarkers.WithoutIndex` | mnxconverter/musicxml.py:666 | `del list[i]`: one shorter, with the elements before i unchanged and those after it shifted left. |
| `MusicXmlMarkers.WithFinalPitch` | mnxconverter/musicxml.py:471 | Setting a note's pitch updates it in every open tie that holds that note, and nothing else. |
| `MusicXmlMarkers.TieStopTakesEarliest` | mnxconverter/musicxml.py:663-668 | With two matching open ties, a tie stop takes one no later than the first, and the later one stays open. |
| `MusicXmlMarkers.ResolvedSlur` | mnxconverter/musicxml.py:670-699 | A slur is incomplete exactly when it starts and ends in the same event, and is then incoming exactly when default-x starts with '-' and a digit. Otherwise it targets the end event, and names its notes exactly when they are targeted. |
| `MusicXmlMarkers.SlurKeepsLayout` | mnxconverter/musicxml.py:670-699 | Adding a slur keeps every event id and which event holds each note. |
| `MusicXmlMarkers.KeepsLayout` | mnxconverter/musicxml.py:670-699 | Any in-place event edit keeps event ids and which event holds each note. |
| `MusicXmlMarkers.ParsePart` | mnxconverter/musicxml.py:229-239 | A part needs an id attribute, or it is the "missing 'id'" data error. Its name is the `<part-name>` text. |
| `MusicXmlMarkers.MissingPartIdEscapes` | mnxconverter/musicxml.py:229-233 | Without an id, the code as written raises a KeyError, which its except clause does not catch. With an id, it agrees with ParsePart. |
| `MusicXmlReading.ClefsOf` | mnxconverter/musicxml.py:299-300 | One clef per `<clef>` child. |
| `MusicXmlReading.ClefsInOrder` | mnxconverter/musicxml.py:296-307 | The clef directions are appended in document order. |
| `MusicXmlReading.LastKeyWins` | mnxconverter/musicxml.py:303-305 | The last `<key>` sets the bar's key. Without one, the key stays. |
| `MusicXmlReading.LastTimeWins` | mnxconverter/musicxml.py:306-307 | The last `<time>` sets the bar's time signature. Without one, it stays. |
| `MusicXmlReading.LastDivisionsWin` | mnxconverter/musicxml.py:301-302 | The last `<divisions>` sets the part's divisions. Without one, they stay. |
| `MusicXmlReading.WithLastBar` | mnxconverter/musicxml.py:246-247 | Replacing the current bar keeps the parts, the number of bars and every earlier bar. |
| `MusicXmlReading.MeasuresLayoutDefined` | mnxconverter/musicxml.py:241-249 | With distinct part ids, the measures give a layout exactly when none has more `<part>` elements than there are parts. |
| `MusicXmlReading.MeasureBarDefined` | mnxconverter/musicxml.py:243-249 | With distinct part ids, one measure gives a bar exactly when it fits the parts. |
| `MusicXmlReading.SlurredKeepsFrame` | mnxconverter/musicxml.py:670-699 | Adding a slur keeps the parts, the bars, the event ids and every stored bar part's sequences. |
| `MusicXmlReading.SlurAdded` | mnxconverter/musicxml.py:670-699 | `add_slur` on values succeeds exactly when both end notes are in some event, and keeps the parts, bars, stored sequence ids and layout. |
| `MusicXmlReading.SlursAdded` | mnxconverter/musicxml.py:274-277 | The slur pass keeps the parts, bars, stored sequence ids, layout and every bar's key, time, repeats and endings. |
| `MusicXmlReading.SlurAddedKeepsHeads` | mnxconverter/musicxml.py:670-699 | One slur edits events in place and leaves every bar's key, time, repeats and endings. |
| `MusicXmlReading.MeasurePartFinishedKeepsHeads` | mnxconverter/musicxml.py:271-294 | The end-of-measure passes leave every bar's key, time, repeats and endings. |
| `MusicXmlReading.NoteChildrenKeepHeads` | mnxconverter/musicxml.py:449-479 | Reading a note's children (a tie stop edits events in place) leaves every bar's key, time, repeats and endings. |
| `MusicXmlReading.HeadStepOnHead` | mnxconverter/musicxml.py:256-261 | An `<attributes>` or `<barline>` step reads the same on a bar with or without its bar parts. |
| `MusicXmlReading.PlainMeasureHead` | mnxconverter/musicxml.py:245-249 | A measure whose parts have no `<attributes>` and no `<barline>` gives a bar with no key, no time, no repeat and no ending. |
| `MusicXmlReading.TupletsFoldedKeepLayout` | mnxconverter/musicxml.py:285-289 | The tuplet pass regroups items within their sequences and keeps every bar part's voices and clefs. |
| `MusicXmlReading.ShiftsAddedKeepLayout` | mnxconverter/musicxml.py:290-294 | The octave-shift pass keeps every bar part's voices and clefs. |
| `MusicXmlReading.ShiftAddedInserts` | mnxconverter/musicxml.py:292-293 | An added shift has a first member held by some event. The score is rewritten item list by item list, and the rewrite inserts an octave-shift marker of the shift's type before that event. |
| `MusicXmlReading.ShiftsAddedKeepStored` | mnxconverter/musicxml.py:290-294 | The octave-shift pass keeps every stored bar part's sequence ids. |
| `MusicXmlReading.ShapeOfStep` | mnxconverter/musicxml.py:449-479 | What the `<note>` loop knows after one more child is one step from what it knew before. |
| `MusicXmlReading.TiedStopStep` | mnxconverter/musicxml.py:546-557 | A tie stop is among the children so far exactly when it was before or is the new child. |
| `MusicXmlReading.AppendedEvent` | mnxconverter/musicxml.py:492-498 | Appending an event to a sequence places it last in that sequence and keeps the sequence ids. |
| `MusicXmlReading.WithPlacedEvent` | mnxconverter/musicxml.py:508 | Replacing the placed event keeps the sequence ids and the placement. |
| `MusicXmlReading.PlacedAfterAppend` | mnxconverter/musicxml.py:508 | After the item is appended, the event sits in the first sequence with the voice's id and holds the item last. |
| `MusicXmlReading.PartsOf` | mnxconverter/musicxml.py:221-227 | The part list succeeds exactly when every entry has an id, giving one part per entry in order. Otherwise a data error. |
| `MusicXmlReading.MusicXmlReader.constructor` | mnxconverter/musicxml.py:200-214 | A fresh reader: an empty score, empty bookkeeping, both id counters at 1 and the beam counter at 0. |
| `MusicXmlReading.MusicXmlReader.Read` | mnxconverter/musicxml.py:216-219 | On success, the parts are those of the part list, and the bars are one per `<measure>`, each holding, per `<part>`, the bar part stored under its part id with the voices and clefs of that `<part>` element. Each bar's key, time, repeats and endings are what its `<measure>` gives (`MeasureHead`). A part-list failure is a data error. |
| `MusicXmlReading.MusicXmlReader.ParsePartList` | mnxconverter/musicxml.py:221-227 | Appends the part list's parts to the score, or fails exactly when the part list does. |
| `MusicXmlReading.MusicXmlReader.ParseMeasures` | mnxconverter/musicxml.py:241-249 | Adds one bar per `<measure>` and keeps the parts. The layout becomes the old one followed by the bars the `<measure>` elements give. The bars' key, time, repeats and endings become the old ones followed by `MeasureHead` of each `<measure>`. Nothing is left pending. |
| `MusicXmlReading.MusicXmlReader.ParseMeasure` | mnxconverter/musicxml.py:243-249 | Adds one bar whose bar parts are the `<part>` elements stored under the part ids in order. More `<part>` elements than parts fails. The new bar's key, time, repeats and endings are those its `<part>` elements set, one after another (`MeasureHead`), and every earlier bar keeps its own. |
| `MusicXmlReading.MusicXmlReader.ParseMeasureParts` | mnxconverter/musicxml.py:247-248 | The loop over a measure's `<part>` elements, each read against the part at its index. More `<part>` elements than parts fails. Otherwise the new bar has the layout of those parts and their own fields, one after another, and the earlier bars keep theirs. |
| `MusicXmlReading.MusicXmlReader.ParseMeasurePartAt` | mnxconverter/musicxml.py:248 | One more `<part>` read: the layout and own fields of the new bar grow by that part's, and nothing is left pending. |
| `MusicXmlReading.HeadsAfterPart` | mnxconverter/musicxml.py:248 | After one more `<part>`, the bars before the new one keep their own fields. |
| `MusicXmlReading.MusicXmlReader.ParseMeasurePart` | mnxconverter/musicxml.py:251-269 | Stores under the part id a bar part with the `<part>` element's voices and clefs, changing no other bar part's layout. The last bar's key, time, repeats and endings become the fold of the children's `<attributes>` and `<barline>` steps (`PartHead`), and every earlier bar keeps its own. Nothing is left pending, and the id counters never go back. |
| `MusicXmlReading.MusicXmlReader.StoreMeasureChildren` | mnxconverter/musicxml.py:251-269 | Reads the children and stores the bar part in the last bar: the part's layout there becomes that of the `<part>` element, and the last bar's own fields become `PartHead` of the children. Every pending tuplet lies in a stored sequence. |
| `MusicXmlReading.MeasurePartFinishedKeepsLayout` | mnxconverter/musicxml.py:271-294 | The end-of-measure passes keep every bar part's voices and clefs. |
| `MusicXmlReading.MusicXmlReader.FinishMeasurePart` | mnxconverter/musicxml.py:271-294 | The new score is the slur pass, then the tuplet pass, then the octave-shift pass applied to the old one (`MeasurePartFinished`), and an error is that function's error. Nothing is left pending. |
| `MusicXmlReading.MusicXmlReader.ResolveTupletsAndShifts` | mnxconverter/musicxml.py:285-294 | The tuplet pass, then the octave-shift pass: the new score is `TupletsAndShiftsAdded` of the old one, and neither list is left pending. |
| `MusicXmlReading.MusicXmlReader.ReadMeasureChildren` | mnxconverter/musicxml.py:255-268 | The new bar part has the voices and clefs of the `<part>` element, in the order they first appear. The score's layout is unchanged. The last bar's key, time, repeats and endings become `PartHead` of the children, and every earlier bar keeps its own. Every tuplet left pending lies in a sequence of the new bar part. |
| `MusicXmlReading.MusicXmlReader.ReadMeasureChild` | mnxconverter/musicxml.py:256-268 | Per tag. `<attributes>`: fails exactly when some child's divisions, key or time fails, with the first such error, and then changes no bar; otherwise the bar part gains the clefs in order and the last bar takes the last key and time read. `<barline>`: succeeds exactly when the barline reads, and the last bar becomes the barline's bar. `<direction>`: fails exactly when the direction does, and the shift state is the direction's. `<backup>`/`<forward>`: fails exactly when the duration does, and changes nothing. Other tags change nothing. Every child adds to the layout as `LayoutStep` says and changes the last bar's own fields as `HeadStep` says. |
| `MusicXmlReading.MusicXmlReader.ReadAttributes` | mnxconverter/musicxml.py:256-257 | The bar part gains the clefs of `<attributes>` in order, and the last bar alone changes: it takes the last key and time read. The sequences stay. It fails exactly when some child's divisions, key or time fails, with the first such error, and then changes no bar. |
| `MusicXmlReading.MusicXmlReader.ReadBarline` | mnxconverter/musicxml.py:260-261 | Succeeds exactly when the barline reads. The last bar then becomes the barline's bar and the layout stays. A failure changes nothing. |
| `MusicXmlReading.MusicXmlReader.ReadNote` | mnxconverter/musicxml.py:266-267 | The note is read as `NoteRead` says from the children's bookkeeping (`NoteChildrenOf`), whose score and slurs the reader keeps. Every bar keeps its key, time, repeats and endings. |
| `MusicXmlReading.MusicXmlReader.ResolveSlurs` | mnxconverter/musicxml.py:274-277 | The new score is `add_slur` applied to each complete slur in order (`SlursAdded`), and an error is that function's. The event ids and stored sequences stay. The list is cleared. |
| `MusicXmlReading.MusicXmlReader.ResolveTuplets` | mnxconverter/musicxml.py:287-289 | The new score is `set_tuplet` applied to each pending tuplet in order (`TupletsFolded`), and an error is that function's. The list is cleared. |
| `MusicXmlReading.MusicXmlReader.ResolveOctaveShifts` | mnxconverter/musicxml.py:292-294 | The new score is `add_octave_shift` applied to each complete shift in order (`ShiftsAdded`), keeping the score's events. The list is cleared. |
| `MusicXmlReading.MusicXmlReader.ParseMeasureAttributes` | mnxconverter/musicxml.py:296-307 | Appends the clefs to the bar part, sets the bar's key and time to the last ones read, and sets the part's divisions. It fails exactly when some child's divisions, key or time fails, with the first such child's error, and then changes nothing. |
| `MusicXmlReading.MusicXmlReader.ParseAttributesChildren` | mnxconverter/musicxml.py:297-307 | The loop over the children is the fold of the attributes step. It fails exactly when some child fails, with the first failing child's error. |
| `MusicXmlReading.AnyAttributeFailsAt` | mnxconverter/musicxml.py:297-307 | The children fail exactly when some child at an index fails. |
| `MusicXmlReading.FailingAttribute` | mnxconverter/musicxml.py:297-307 | When the children fail, some index holds a failing child. |
| `MusicXmlReading.FailingAttributeAt` | mnxconverter/musicxml.py:297-307 | A failing child at any index makes the children fail. |
| `MusicXmlReading.AttributesReadLayout` | mnxconverter/musicxml.py:296-307 | A successful attributes read keeps the score's layout, adds its clefs to the bar part's layout as `LayoutStep` does, keeps the sequences, and changes the last bar's own fields as `HeadStep` does. |
| `MusicXmlReading.MusicXmlReader.ParseAttributesChild` | mnxconverter/musicxml.py:297-307 | One child is one attributes step. It fails exactly when its divisions, key or time fails, with that parser's error. |
| `MusicXmlReading.MusicXmlReader.ParseDirection` | mnxconverter/musicxml.py:371-375 | Only data errors. Complete shifts only grow, and never hold an empty shift. Without an octave shift, nothing changes. |
| `MusicXmlReading.MusicXmlReader.ParseDirectionType` | mnxconverter/musicxml.py:377-381 | The same, for one `<direction-type>`. |
| `MusicXmlReading.MusicXmlReader.ParseOctaveShift` | mnxconverter/musicxml.py:383-404 | "up" or "down" opens a shift of the table's type, or is a data error for an unknown size. A stop completes a shift with members. Anything else changes nothing. |
| `MusicXmlReading.MusicXmlReader.ParseNote` | mnxconverter/musicxml.py:438-518 | The bar part and event are `NotePut` of what the children say. The score, slurs, ties, beam counter and beams are the children's bookkeeping followed by the note's records. Advances the counters. Adds the event to every open tuplet, closes the stopped ones into pending tuplets, and adds the item to the open shift. A note with neither rest nor pitch fails. |
| `MusicXmlReading.MusicXmlReader.PlaceNote` | mnxconverter/musicxml.py:481-508 | The children are read as `NoteChildrenOf` says, and the bar part and event are `NotePut` of its voice, chord flag, duration and item. The reader's score, slurs, ties and beam counter are the bookkeeping the children leave. |
| `MusicXmlReading.MusicXmlReader.NewItem` | mnxconverter/musicxml.py:500-506 | A rest is a Rest. A pitched note is a Note that takes the next note id. A note without a pitch is a data error. |
| `MusicXmlReading.MusicXmlReader.RecordNote` | mnxconverter/musicxml.py:509-518 | Joins the event to its beam (`BeamJoined`). Adds the event to every open tuplet and moves exactly the closed numbers to pending tuplets with the voice, events and ratio. Adds the item to the open shift, sets the note's pitch in its open ties and counts the note. The score, slurs and id counters stay. |
| `MusicXmlReading.MusicXmlReader.RecordTuplets` | mnxconverter/musicxml.py:511-515 | Every open tuplet gains the event. The closed numbers leave the open tuplets and become pending tuplets, in the order they were closed, each with the voice, its events and the ratio. |
| `MusicXmlReading.MusicXmlReader.RecordBeam` | mnxconverter/musicxml.py:509-510 | A note with a beam id joins that beam last, and a new id starts the beam in the note's voice. Without a beam id, the beams stay (`BeamJoined`). |
| `MusicXmlReading.MusicXmlReader.ParseNoteChildren` | mnxconverter/musicxml.py:449-479 | After the loop: the voice, chord, rest, type, dots, closed tuplets and whether there is a pitch are those of the children. Beam ids are never 0. |
| `MusicXmlReading.MusicXmlReader.ParseNoteChild` | mnxconverter/musicxml.py:450-479 | One child is one step of the note's shape. |
| `MusicXmlReading.MusicXmlReader.ParseNoteValue` | mnxconverter/musicxml.py:451-479 | The value-only branches. An accidental succeeds exactly when its text is in the import table, and stores its code. |
| `MusicXmlReading.MusicXmlReader.PlaceEvent` | mnxconverter/musicxml.py:482-498 | A new event takes the next id, in the first sequence with the voice's id. A chord joins the last event, or fails with a data error on a different duration. |
| `MusicXmlReading.MusicXmlReader.PutNote` | mnxconverter/musicxml.py:481-508 | The outcome is `NotePut`: a chord with a last event joins it (keeping the event counter, failing on a different duration); otherwise a new event takes the next id. |
| `MusicXmlReading.NotePutTouchesOnlyItsVoice` | mnxconverter/musicxml.py:482-498 | Putting a note keeps the directions and every other voice. A chord with a last event keeps the voice's event ids and joins one of them. Otherwise the new id is appended to them. |
| `MusicXmlReading.PlacementIsNotePut` | mnxconverter/musicxml.py:482-508 | The event placement the reader makes is exactly `NotePut` on values. |
| `MusicXmlReading.MusicXmlReader.ParseBeam` | mnxconverter/musicxml.py:520-538 | Answers and updates the counter as the beam step says. |
| `MusicXmlReading.MusicXmlReader.AddEventToBeam` | mnxconverter/musicxml.py:701-704 | Appends the event to its beam, creating the beam if needed. |
| `MusicXmlReading.MusicXmlReader.RegisterTuplets` | mnxconverter/musicxml.py:511-516 | Every open tuplet gains the event. Each closed number becomes a pending tuplet, in order. Popping an unknown or repeated number is the KeyError. |
| `MusicXmlReading.MusicXmlReader.CloseTuplets` | mnxconverter/musicxml.py:514-516 | Pops each closed number into a pending tuplet, in order. |
| `MusicXmlReading.MusicXmlReader.ParseNotations` | mnxconverter/musicxml.py:540-562 | The loop equals the fold `NotationsOf` of the per-child steps over the reader's bookkeeping. It returns the stopped tuplet numbers. The note is referenced only by a tie stop. A tie stop before the pitch fails. |
| `MusicXmlReading.MusicXmlReader.ParseNotationAt` | mnxconverter/musicxml.py:543-561 | Child i extends the fold over the children before it by one step, or ends the whole loop with its error. |
| `MusicXmlReading.MusicXmlReader.ParseNotation` | mnxconverter/musicxml.py:543-561 | The same, for one child of `<notations>`. |
| `MusicXmlReading.MusicXmlReader.ParseTiedStop` | mnxconverter/musicxml.py:550-557 | A tie stop finds the matching open tie, sets its tie end, marks the note referenced and removes the tie. With no match, nothing changes. |
| `MusicXmlReading.MusicXmlReader.ParseTied` | mnxconverter/musicxml.py:546-557 | A `<tied>` is one notation step: a start opens a tie, a stop closes the first matching one. |
| `MusicXmlReading.MusicXmlReader.ParseSlur` | mnxconverter/musicxml.py:564-586 | A start opens the slur under its number. A stop with an open slur completes it. Anything else changes nothing. |
| `MusicXmlReading.MusicXmlReader.ParseTuplet` | mnxconverter/musicxml.py:588-600 | A start opens an empty tuplet under its number. A stop returns the number. |
| `MusicXmlReading.MusicXmlReader.GetOpenTieByEndNote` | mnxconverter/musicxml.py:663-668 | Returns and removes the first matching open tie. |
| `MusicXmlReading.MusicXmlReader.HeuristicSlurTargetsNotes` | mnxconverter/musicxml.py:716-723 | True exactly when another complete slur joins the same two events. |
| `MusicXmlReading.MusicXmlReader.AddSlur` | mnxconverter/musicxml.py:670-699 | Fails exactly when an end note is in no event. Otherwise the score is the slurred score, with the notes targeted exactly when the heuristic says so. |
| `MusicXmlReading.MusicXmlReader.FoldPendingTuplet` | mnxconverter/musicxml.py:287-288 | The new score is `TupletFolded`: the tuplet's sequence in the stored bar part has its items folded by `TupletFold`. On the fold's (internal) error, the score is unchanged. |
| `MusicXmlReading.MusicXmlReader.AddOctaveShift` | mnxconverter/musicxml.py:706-714 | An empty shift is an internal error. Otherwise it succeeds exactly when the first note has an event and the last note's event has a measure location. The score becomes the score with the marker, carrying that location, inserted before the first note's event. |
| `MusicXmlReading.OtherSlurJoins` | mnxconverter/musicxml.py:717-723 | The loop over the other complete slurs equals the heuristic's specification. |
| `MusicXmlReading.SlurJoinsEvents` | mnxconverter/musicxml.py:719-721 | One slur joins the two events exactly when the specification says so. |
| `MusicXmlReading.ReadMusicXml` | mnxconverter/musicxml.py:191-193 | The score of a fresh reader: the part list's parts and one bar per `<measure>`, with the layout and the key, time, repeats and endings that its `<measure>` gives. |
| `MnxCommon.MapOk` | mnxconverter/mnx_common.py:145-152 | A writer loop succeeds exactly when every element does, and gives one output per element in order. |
| `MnxCommon.MapOkAppend` | mnxconverter/mnx_common.py:145-152 | Writing two lists joined is writing each and joining the outputs. |
| `MnxCommon.Lookup` | mnxconverter/mnx_common.py:259-263 | A table lookup succeeds exactly for a key in the table, with its value. |
| `MnxCommon.AccidentalTablesAgree` | mnxconverter/mnx_common.py:5-13 | Every imported accidental exports. Every exported accidental except the double flat imports back as itself. The double flat's name does not import. |
| `MnxCommon.OctaveShiftTablesAgree` | mnxconverter/mnx_common.py:18-25 | Each imported (size, type) exports as its size, negated for "down", with the non-standard 16 written as 15. |
| `MnxCommon.SideAndEndingTablesAgree` | mnxconverter/mnx_common.py:14-30 | The exported slur sides are exactly the imported ones. Every ending type imports back as itself. |
| `MnxCommon.IndexOf` | mnxconverter/mnx_common.py:222-223 | The first index of a character; None exactly when it is absent. |
| `MnxCommon.SlashFormReadsBack` | mnxconverter/mnx_common.py:204-208 | "a/b" splits back into a and b. |
| `MnxCommon.SlashFormSplits` | mnxconverter/mnx_common.py:204-208 | The first '/' of "a/b" follows a, and the text after it is b. |
| `MnxCommon.TimesigReadsBack` | mnxconverter/mnx_common.py:222-223 | A time signature's micro-syntax reads back as its count and unit. |
| `MnxCommon.KeysigReadsBack` | mnxconverter/mnx_common.py:225-226 | A key's micro-syntax reads back as the key. |
| `MnxCommon.TrailingCountOfRepeat` | mnxconverter/mnx_common.py:239-240 | The dots appended to a duration are counted back exactly. |
| `MnxCommon.DurationFailsExactly` | mnxconverter/mnx_common.py:228-241 | A duration writes exactly when it has a fraction that is a whole number above 1 or a unit fraction at most 1. |
| `MnxCommon.DurationReadsBack` | mnxconverter/mnx_common.py:228-241 | A written duration reads back as its reduced fraction and its dots. |
| `MnxCommon.AccidentalsReadBack` | mnxconverter/mnx_common.py:246-249 | The '#' or 'b' run of a pitch reads back as its alter, leaving the octave. |
| `MnxCommon.PitchMicroformatReadsBack` | mnxconverter/mnx_common.py:243-251 | A pitch's micro-syntax reads back as the pitch, when the step holds no '#', 'b', '-' or digit. |
| `MnxCommon.ReadPitchOfParts` | mnxconverter/mnx_common.py:243-251 | A string made of a step, an accidental run and an octave reads as that pitch. |
| `MnxCommon.MicroformatAccidental` | mnxconverter/mnx_common.py:253-257 | Succeeds exactly for a code in the export table. The name imports back as the code, except for the double flat. |
| `MnxCommon.MicroformatSlurSide` | mnxconverter/mnx_common.py:259-260 | Up is "up", down is "down", and any other side is a KeyError. |
| `MnxCommon.MicroformatOctaveShift` | mnxconverter/mnx_common.py:262-263 | Succeeds exactly for the six shift types. The value is negative exactly for the three "ma"/"va" shifts. |
| `MnxCommon.GetMeasureHeader` | mnxconverter/mnx_common.py:67-109 | A `<measure>` without attributes. It holds one `<directions>` exactly when some direction is written, and fails exactly when a direction does. |
| `MnxCommon.KindsAppend` | mnxconverter/mnx_common.py:69-104 | The kinds of joined directions are the kinds of each, joined. |
| `MnxCommon.DirectionHasItsKind` | mnxconverter/mnx_common.py:69-104 | A direction kind writes one element of that kind when it is wanted, and nothing otherwise. |
| `MnxCommon.DirectionsOfKinds` | mnxconverter/mnx_common.py:69-104 | Writing a list of kinds gives exactly the wanted ones, in order. |
| `MnxCommon.MeasureHeaderOrder` | mnxconverter/mnx_common.py:69-104 | The header's directions are the wanted ones in the source's order: time, key, repeat start, ending start, ending stop, repeat end. |
| `MnxCommon.DirectionsOfFails` | mnxconverter/mnx_common.py:69-104 | Writing a list of kinds fails exactly when one kind fails. |
| `MnxCommon.MeasureHeaderFails` | mnxconverter/mnx_common.py:85-97 | The header fails exactly when an ending's type is not in the export table, or a start ending has no numbers. |
| `MnxCommon.RepeatEndTimes` | mnxconverter/mnx_common.py:98-104 | An end repeat writes `times` exactly when it is above 2, and the value reads back. |
| `MnxCommon.EndingStartNumbers` | mnxconverter/mnx_common.py:85-91 | A start ending's comma-joined numbers read back, by the importer's own parser, as the same list. |
| `MnxCommon.IdsAreDistinct` | mnxconverter/musicxml.py:448 | Distinct event numbers give distinct event ids, and likewise for notes. |
| `MnxCommon.WriteNoteFails` | mnxconverter/mnx_common.py:193-202 | A note fails exactly when its rendered accidental is set and not in the export table. |
| `MnxCommon.WriteNoteAttributes` | mnxconverter/mnx_common.py:194-197 | A `<note>` with the pitch's micro-syntax, and an id exactly when the note is referenced. |
| `MnxCommon.WriteNoteAccidental` | mnxconverter/mnx_common.py:198-199 | The accidental attribute is present exactly when a non-zero accidental is rendered. |
| `MnxCommon.AccidentalAttrKeys` | mnxconverter/mnx_common.py:198-199 | The accidental attributes are {"accidental"} or nothing. |
| `MnxCommon.WriteNoteTie` | mnxconverter/mnx_common.py:200-201 | A note's only child is a `<tied>` naming the note that ends its tie, when it has one. |
| `MnxCommon.WriteSlurDrops` | mnxconverter/mnx_common.py:168-191 | A slur is dropped exactly when it is incomplete with an unknown location, or complete without a target. It fails exactly on an unknown side. |
| `MnxCommon.WriteSlurLocation` | mnxconverter/mnx_common.py:170-172 | A location is written exactly for an incomplete slur. |
| `MnxCommon.WriteSlurTarget` | mnxconverter/mnx_common.py:184 | A complete slur targets its end event's id. An incomplete one has no target. |
| `MnxCommon.WriteSlurNotes` | mnxconverter/mnx_common.py:185-188 | Start and end notes are written exactly when a complete slur has them. |
| `MnxCommon.WriteSlurSide` | mnxconverter/mnx_common.py:189-190 | A side is written exactly when the slur has one. |
| `MnxCommon.WrittenSlurKeys` | mnxconverter/mnx_common.py:168-191 | A written slur's attributes are the location or target entries plus the side, with their values kept. |
| `MnxCommon.SlurAttrsKeys` | mnxconverter/mnx_common.py:170-188 | The location or target entries: exactly {"location"}, or the target with the optional start and end notes. |
| `MnxCommon.SlurAttrsNotes` | mnxconverter/mnx_common.py:185-188 | The start and end note entries name those notes. |
| `MnxCommon.WriteSlurs` | mnxconverter/mnx_common.py:164-165 | The slurs succeed exactly when every slur does, giving at most one `<slur>` per slur. |
| `MnxCommon.WriteSlursAppend` | mnxconverter/mnx_common.py:164-165 | Writing two runs of slurs succeeds exactly when each run does, and writes the first run's elements and then the second's. |
| `MnxCommon.WriteSlursOfOne` | mnxconverter/mnx_common.py:164-165 | One slur writes its own `<slur>`, or nothing when `write_slur` drops it. |
| `MnxCommon.WriteSlursKept` | mnxconverter/mnx_common.py:164-191 | The written elements are exactly the `<slur>`s of the slurs not dropped. When none is dropped, element i is slur i's. |
| `MnxCommon.WriteEventValue` | mnxconverter/mnx_common.py:155-156 | An `<event>` whose value reads back as the reduced duration and dots. |
| `MnxCommon.WriteEventId` | mnxconverter/mnx_common.py:157-158 | An event has an id exactly when some slur ends on it. |
| `MnxCommon.WriteEventChildren` | mnxconverter/mnx_common.py:159-165 | One `<note>` or `<rest>` per item, in order, each the item written. Then come the event's slurs, exactly as `WriteSlurs` writes them. |
| `MnxCommon.WriteEventNote` | mnxconverter/mnx_common.py:193-202 | Inside an event, a note item's element is a `<note>` with the note's pitch. It has an id exactly when the note is referenced, and a `<tied>` to the tie's end exactly when the tie ends somewhere. |
| `MnxCommon.WriteItem` | mnxconverter/mnx_common.py:145-152 | An event writes `<event>`, a tuplet `<tuplet>`, and an octave shift `<directions>`. |
| `MnxCommon.WriteItems` | mnxconverter/mnx_common.py:145-152 | One element per item, in order, with the item's tag. |
| `MnxCommon.TupletAttributes` | mnxconverter/mnx_common.py:204-209 | A tuplet's inner and outer attributes are its ratio in "n/d" form, and its children are its items written. |
| `MnxCommon.OctaveShiftElement` | mnxconverter/mnx_common.py:211-220 | An octave shift is a `<directions>` holding one `<octave-shift>` with the exported type and the end position. |
| `MnxCommon.XmlEventsAppend` | mnxconverter/mnx_common.py:145-152 | The `<event>`s of joined element lists are the `<event>`s of each, joined. |
| `MnxCommon.ItemsWriteEachEvent` | mnxconverter/mnx_common.py:145-152 | The `<event>` elements written, in document order, are the score's events written in walk order. |
| `MnxCommon.ItemWritesItsEvents` | mnxconverter/mnx_common.py:145-209 | The same, for one item. |
| `MnxCommon.WriteClef` | mnxconverter/mnx_common.py:134-139 | A clef writes exactly when it has a sign and a line, as a `<clef>` with both. |
| `MnxCommon.WriteBarPart` | mnxconverter/mnx_common.py:122-126 | A `<measure>` with one child per sequence, plus one `<directions>` when there are clefs (the contents are in `MnxCommon.BarPartWritten`). |
| `MnxCommon.BarPartWritten` | mnxconverter/mnx_common.py:122-139 | A bar part writes exactly when all its clefs and sequences do. The `<directions>` holds clef k written at k, and sequence k written follows it. |
| `MnxCommon.SequencesWriteEachEvent` | mnxconverter/mnx_common.py:141-143 | The `<event>` elements of the written `<sequence>` elements, in document order, are the sequences' events written in order. |
| `MnxCommon.BarPartWritesEachEvent` | mnxconverter/mnx_common.py:122-126 | The `<event>`s of a written bar part are its sequences' events written, each once, in walk order. Its clefs hold none. |
| `MnxCommon.WritePartMeasures` | mnxconverter/mnx_common.py:119-120 | Succeeds exactly when every bar holds a writable bar part for the part (a missing one is the KeyError), and measure i is bar i's bar part written. |
| `MnxCommon.MeasureOf` | mnxconverter/mnx_common.py:120 | A bar gives a measure exactly when it holds a writable bar part for the part. The measure is that bar part written. |
| `MnxCommon.MeasuresCons` | mnxconverter/mnx_common.py:119-120 | With one more bar in front, measure i is still bar i's bar part written. |
| `MnxCommon.BarsWritableCons` | mnxconverter/mnx_common.py:119-120 | Every bar is writable exactly when the first one is and so is every later one. |
| `MnxCommon.MeasuresWriteEachEvent` | mnxconverter/mnx_common.py:119-120 | The `<event>`s of the written measures are the part's events, bar by bar, written once each in walk order. |
| `MnxCommon.WritePart` | mnxconverter/mnx_common.py:115-120 | Succeeds exactly when its measures do. A `<part>` with a `<part-name>` carrying the name first when the part has one, then one `<measure>` per bar. |
| `MnxCommon.PartHoldsMeasures` | mnxconverter/mnx_common.py:115-120 | After the optional `<part-name>`, the children of a written part are exactly the part's measures, one per bar in bar order. |
| `MnxCommon.PartWritesEachEvent` | mnxconverter/mnx_common.py:115-120 | A written part holds its bar parts' events, bar by bar, each once. The name holds none. |
| `MnxCommon.WriteHeaders` | mnxconverter/mnx_common.py:62-65 | One measure header per bar, in order. |
| `MnxCommon.DocumentGlobal` | mnxconverter/mnx_common.py:52-65 | The document's first child is `<global>`, holding each bar's header. |
| `MnxCommon.DocumentParts` | mnxconverter/mnx_common.py:111-120 | After `<global>`, child 1 + p is part p written, with one measure per bar after its name. |
| `MnxCommon.DocumentMeasure` | mnxconverter/mnx_common.py:111-126 | Measure i of part p in a written document is the bar part stored for part p in bar i, written. |
| `MnxCommon.DocumentPartEvents` | mnxconverter/mnx_common.py:111-126 | Part p of a written document holds exactly that part's events, bar by bar, each once, in walk order. |
| `MnxCommon.MissingPartFails` | mnxconverter/mnx_common.py:120 | A bar without some part's bar part makes the document fail. |
| `Mnx.Pow2` | mnxconverter/mnx.py:5-23 | A power of two is 1 at zero, even above zero, and greater than its exponent. |
| `Mnx.NoteValueBasesArePowersOfTwo` | mnxconverter/mnx.py:5-23 | Every power of two from 2^-12 to 2^4 has a note value name. |
| `Mnx.NoteValueBasesAreCanonical` | mnxconverter/mnx.py:5-23 | The table's keys are in lowest terms, as Fraction keys are. |
| `Mnx.NoteValueNamesInvert` | mnxconverter/mnx.py:5-23 | The names are distinct, so a name gives back its fraction. |
| `Mnx.RhythmTypesHaveNoteValues` | mnxconverter/mnx.py:5-23 | Every MusicXML rhythm type has a note value. |
| `Mnx.EncodeNoteValue` | mnxconverter/mnx.py:154-162 | Succeeds exactly when the reduced fraction has a name. Writes dots exactly when there are some. |
| `Mnx.NoteValueReadsBack` | mnxconverter/mnx.py:154-162 | A note value reads back as the reduced fraction and the dots. |
| `Mnx.EncodePitch` | mnxconverter/mnx.py:174-181 | Writes the step and octave, and the alter exactly when it is non-zero. |
| `Mnx.PitchReadsBack` | mnxconverter/mnx.py:174-181 | A pitch object reads back as the pitch, with a missing alter read as 0. |
| `Mnx.EncodeNotePitchAndId` | mnxconverter/mnx.py:164-167 | A note's pitch reads back, and it has an id exactly when it is referenced. |
| `Mnx.EncodeNoteMarks` | mnxconverter/mnx.py:168-171 | accidentalDisplay is present exactly for a non-zero accidental. tied targets the note that ends the tie. |
| `Mnx.EncodeNoteItem` | mnxconverter/mnx.py:148 | A note item encodes. A rest among the notes is the AttributeError of reading a Rest's pitch. |
| `Mnx.SlurFieldsMatchAttrs` | mnxconverter/mnx.py:183-205 | The JSON slur keeps a slur exactly when the XML writer does, with the same entries. |
| `Mnx.CompleteSlurFieldsMatch` | mnxconverter/mnx.py:193-202 | For a complete slur, the JSON and XML entries are the same. |
| `Mnx.CompleteSlurFields` | mnxconverter/mnx.py:198-202 | A complete slur has its target and its optional start and end notes, and no other key. |
| `Mnx.SlurMatchesXml` | mnxconverter/mnx.py:183-205 | The JSON slur succeeds, is dropped or fails exactly as the XML slur does, and has the same entries. |
| `Mnx.EncodeSlurs` | mnxconverter/mnx.py:149-151 | Succeeds exactly when every slur does, keeping at most one object per slur. |
| `Mnx.EncodeSlursAppend` | mnxconverter/mnx.py:149-151 | Encoding two runs of slurs succeeds exactly when each run does, and gives the first run's objects and then the second's. |
| `Mnx.EncodeSlursOfOne` | mnxconverter/mnx.py:149-151 | One slur gives its own object, or nothing when `encode_slur` returns None. |
| `Mnx.EncodeSlursKept` | mnxconverter/mnx.py:183-205 | The kept objects are exactly those of the slurs `encode_slur` does not drop. When none is dropped, object i is slur i's. |
| `Mnx.SlursAgreeAppend` | mnxconverter/mnx.py:149-151 | Two runs of slurs that agree entry by entry with two runs of `<slur>`s still agree when joined. |
| `Mnx.SlursMatchXml` | mnxconverter/mnx.py:149-151 | The JSON writer succeeds exactly when the XML writer does. It keeps the same slurs in the same order, and object i has the entries of `<slur>` i. |
| `Mnx.EventContent` | mnxconverter/mnx.py:145-148 | A rest event has "rest", and any other event has "notes". |
| `Mnx.EventSlurs` | mnxconverter/mnx.py:149-151 | "slurs" is present exactly when the event has slurs, and holds the array of the encoded slurs. It fails exactly when encoding the slurs fails. |
| `Mnx.EncodeEventSlurs` | mnxconverter/mnx.py:149-151 | In an encoded event, "slurs" is absent when there are no slurs, and otherwise is the array of the encoded slurs. |
| `Mnx.EventSlursMatchXml` | mnxconverter/mnx.py:149-151 | For one event, the JSON "slurs" array agrees entry by entry with the `<slur>` elements after the items of the written `<event>`, and both are empty together. |
| `Mnx.EncodeEvent` | mnxconverter/mnx.py:140-152 | An event object has type "event". |
| `Mnx.EventFieldsHead` | mnxconverter/mnx.py:141-144 | The type and duration, and an id exactly for a referenced event. |
| `Mnx.EventFieldsBody` | mnxconverter/mnx.py:145-151 | "rest" for a rest event, else "notes", and "slurs" exactly when it has slurs. |
| `Mnx.EncodeEventFails` | mnxconverter/mnx.py:140-152 | An event fails exactly when its duration has no note value, a non-rest event holds a rest, or a slur has an unknown side. |
| `Mnx.EncodeEventDuration` | mnxconverter/mnx.py:142 | The duration reads back as the reduced fraction and the dots. |
| `Mnx.EncodeEventId` | mnxconverter/mnx.py:143-144 | The id is present exactly for a referenced event. |
| `Mnx.EncodeEventKeys` | mnxconverter/mnx.py:145-151 | "rest", "notes" and "slurs" are each present exactly when they should be. |
| `Mnx.EncodeEventNotes` | mnxconverter/mnx.py:148 | One note object per item, in order. |
| `Mnx.EncodeOctaveShift` | mnxconverter/mnx.py:225-230 | Type "octave-shift", the end position and the exported value. An unknown type is the KeyError. |
| `Mnx.OctaveShiftValues` | mnxconverter/mnx.py:37-44 | 8va encodes as "-8" and 15mb as "15". The JSON table agrees with the XML micro-syntax. |
| `Mnx.EncodeItem` | mnxconverter/mnx.py:130-138 | An object, with type "event" exactly for an event. An octave shift has no content. |
| `Mnx.TupletObject` | mnxconverter/mnx.py:207-219 | A tuplet has no type, holds its content, and has the inner and outer numerators as multiples. |
| `Mnx.EncodeItems` | mnxconverter/mnx.py:127 | One object per item, in order. Succeeds exactly when every item does. |
| `Mnx.TupletMultiples` | mnxconverter/mnx.py:207-219 | An encoded tuplet has its ratio's multiples and its items' objects as content. |
| `Mnx.TupletWithoutRatioFails` | mnxconverter/mnx.py:211 | A tuplet without a ratio is the AttributeError. |
| `Mnx.JsonEventsAppend` | mnxconverter/mnx.py:125-136 | The event objects of joined lists are those of each, joined. |
| `Mnx.ItemsEncodeEachEvent` | mnxconverter/mnx.py:125-136 | The event objects, in document order, are the score's events encoded in walk order. |
| `Mnx.SequencesEncodeEachEvent` | mnxconverter/mnx.py:125-128 | The event objects of the encoded sequences, in document order, are the sequences' events encoded in order. |
| `Mnx.SequenceHoldsContent` | mnxconverter/mnx.py:125-128 | An encoded sequence holds exactly the encoded items under `content`, so its events are theirs in order. |
| `Mnx.MeasureHoldsSequences` | mnxconverter/mnx.py:116-119 | An encoded part measure holds exactly the encoded sequences, in order, under `sequences`. |
| `Mnx.ItemEncodesItsEvents` | mnxconverter/mnx.py:130-219 | The same, for one item. |
| `Mnx.EncodePositionedClef` | mnxconverter/mnx.py:238-244 | A position is written exactly when it is not zero. |
| `Mnx.ClefPositionValue` | mnxconverter/mnx.py:252-255 | The position is a two-number fraction, in lowest terms and of the same value. |
| `Mnx.EncodeSequences` | mnxconverter/mnx.py:117-118 | Succeeds exactly when every sequence encodes, and entry i is sequence i encoded. |
| `Mnx.EncodeClefs` | mnxconverter/mnx.py:120-121 | Entry i is positioned clef i encoded. |
| `Mnx.PartMeasureFields` | mnxconverter/mnx.py:116-123 | A bar part encodes exactly when all its sequences do. Its "sequences" entry holds sequence i encoded at index i, and "clefs" is present exactly when the bar part has positioned clefs. |
| `Mnx.PartMeasureEncodesEachEvent` | mnxconverter/mnx.py:116-123 | The event objects of an encoded bar part are its sequences' events encoded, each once, in walk order. |
| `Mnx.RepeatEndObject` | mnxconverter/mnx.py:94-98 | `times` is present exactly when above 2. |
| `Mnx.GlobalFieldsStart` | mnxconverter/mnx.py:85-93 | time, key and repeat-start are present exactly when wanted, with their values. |
| `Mnx.GlobalFieldsEnd` | mnxconverter/mnx.py:94-103 | repeat-end and ending are present exactly when wanted, with their values. |
| `Mnx.GlobalFieldsKeys` | mnxconverter/mnx.py:83-104 | No other key is written. |
| `Mnx.MeasureGlobalMatchesHeader` | mnxconverter/mnx.py:83-104 | Each global key is present exactly when the XML header writes that direction. |
| `Mnx.MeasureGlobalValues` | mnxconverter/mnx.py:85-98 | The count, unit, fifths and times are the bar's. |
| `Mnx.MeasureGlobalEnding` | mnxconverter/mnx.py:99-103 | A start ending writes its numbers. |
| `Mnx.EncodeGlobal` | mnxconverter/mnx.py:75-81 | One global measure per bar, in order. |
| `Mnx.EncodePartMeasures` | mnxconverter/mnx.py:113 | Succeeds exactly when every bar holds an encodable bar part for the part (a missing one is the KeyError), and measure i is bar i's bar part for the part, encoded. |
| `Mnx.MeasuresEncodeEachEvent` | mnxconverter/mnx.py:113 | The event objects of the encoded measures are the part's events, bar by bar, encoded once each in walk order. |
| `Mnx.EncodePart` | mnxconverter/mnx.py:109-114 | Succeeds exactly when its measures do. "name" is the part's name exactly when it has one, and "measures" holds one entry per bar. |
| `Mnx.PartHoldsMeasuresJson` | mnxconverter/mnx.py:109-114 | Measure i of an encoded part is bar i's bar part for that part, encoded. |
| `Mnx.ScoreObject` | mnxconverter/mnx.py:67-73 | The document holds mnx version 1, the global object and the parts. |
| `Mnx.ScoreShape` | mnxconverter/mnx.py:67-73 | The document holds mnx version 1, the encoded global, and one part per part with one measure per bar. |
| `Mnx.ScorePart` | mnxconverter/mnx.py:106-107 | Entry p of "parts" is part p encoded over all bars. |
| `Mnx.ScoreMeasure` | mnxconverter/mnx.py:106-123 | Measure i of part p in an encoded score is the encoding of the bar part stored for part p in bar i. |
| `Mnx.ScorePartEvents` | mnxconverter/mnx.py:106-123 | Part p of an encoded score holds exactly that part's events, bar by bar, each once, in walk order. |
| `Mnx.MissingPartFailsJson` | mnxconverter/mnx.py:113 | A bar without some part's bar part makes the document fail. |

## Left out

- Reading files: unzipping, the container file and XML parsing (`get_musicxml_etree`) are
  not modelled. The reader starts from an element tree.
- `convert_to_timewise` and `clean_musicxml` are not modelled. The document is assumed to
  be timewise.
- Serialisation is not modelled: `etree.tostring` for MNX-Common, and `json.dumps` with
  indentation for MNX. The writers produce abstract trees.
- MusicXmlReading.MusicXmlReader.FinishMeasurePart: at musicxml.py:282 the source calls
  `sequence.set_beamed(...)` for each beam group, and `Sequence` defines no such method. So a
  measure part that leaves a beam group raises AttributeError there. The model clears the
  beam groups and goes on, as if beams were simply not folded.
- MusicXmlReading.MusicXmlReader.ParseMeasurePart, MusicXmlReading.MusicXmlReader.Read and
  MusicXmlReading.ReadMusicXml state, of the score, the layout of every stored bar part (its
  voices in order and its clefs) and every bar's key, time, repeats and endings. They do not
  state the items of the sequences as one function of the document. Those items are stated
  one step at a time: per note by `ReadNote` and `ParseNote` (through `NoteRead` and
  `NotePut`), and per measure part by `FinishMeasurePart` (through `MeasurePartFinished`).
- MusicXmlReading.MusicXmlReader.ReadMeasureChild: for a `<note>` child it states the
  layout step, the bars' own fields and the pending tuplets. The full note relation is
  stated one level down, at `ReadNote`, and is not repeated here.
- MusicXmlReading.MusicXmlReader.ReadAttributes: the divisions it stores per part are never
  read by the source, so no contract mentions them.
- MusicXmlReading.MusicXmlReader.Read and MusicXmlReading.ReadMusicXml run the corrected
  part-list parser of the second finding: a `<score-part>` without an id is the "missing
  'id'" data error, where musicxml.py:229-239 raises an uncaught KeyError.
- ScoreModel.GetEventContainingNote and ScoreModel.GetEventMeasureLocation walk the score
  with the corrected `IterEvents` of the first finding, which skips octave-shift markers.
  At score.py:123-129 the source raises AttributeError when its walk reaches one. The
  reader's slur and octave-shift passes use these corrected lookups too.
- `parse_forward_backup` is read and checked, but the position it updates is never used by
  the source, so the model keeps no position.
- Concert pitch: the source leaves the conversion of `<key>` to concert pitch undone, and
  so does the model.
- Identity: objects are values, and an event or note is known by its id or element serial.
  Aliasing between Python objects is not captured beyond those ids.
- Integers follow Python: they are unbounded. Whitespace is `str.isspace` on U+0000 to
  U+00FF. Digits are the ASCII '0' to '9'. Other Unicode digits are not modelled, and
  neither is whitespace above U+00FF. That includes the Latin-1 superscripts ¹, ² and ³:
  `isdigit` accepts them and `int()` then raises ValueError (mnxconverter/musicxml.py:356
  and 634-640), while the model treats them as non-digits.
- Error messages are kept for the data errors the source raises on purpose. Other Python
  exceptions are one `InternalError` whose text names the exception, and their messages are
  not exact.
- When the reader fails part way, the exception ends the read and no partial score is
  returned. So a partial state cannot be observed. `ReadBarline`, `ReadAttributes`,
  `ParseMeasureAttributes` and the `<attributes>` case of `ReadMeasureChild` state that the
  score is unchanged on an error. The source behaves differently: it edits the bar in
  place, child by child, before it raises. For example, parse_measure_attributes (mnxconverter/musicxml.py:297-307) may already have set
  `bar.keysig`, appended clefs and stored the divisions when a later `<time>` fails.
  parse_barline (mnxconverter/musicxml.py:333-349) may already have set `bar.start_repeat`
  or `bar.start_ending` when a later `<repeat>` has no `direction`.
- `MusicXmlReading.MusicXmlReader.Read` requires a fresh reader, as the source says a reader
  reads one file.
- A note's duration is the fraction of its `<type>`, or None. `<duration>` is never used
  for it, and the model does the same.
- Attribute order of the written XML elements is not modelled: attributes are a map.
- The MNX JSON writer reads attributes the score graph never defines: `event.is_referenced`,
  `event.is_rest()`, `bar_part.clefs` and `clef.position`. They are modelled as an explicit
  `Extensions` record passed in: the referenced events, the rest events and the positioned
  clefs of each bar part, each clef with an optional position of its own.
- Mnx.EncodeMeasureGlobal: the source reads `bar.keysig.fifths` on an integer key, which
  raises AttributeError; the model writes the stored integer instead.
- `GraceNoteGroup` is not defined in the score graph, so `encode_grace_note_group` is not
  modelled and no item is a grace group.
- The tuplet `duration` entries in the JSON are the literal "TODO", as in the source.
- A clef without a sign or line: the XML writer raises TypeError (`WriteClef` fails).
  `encode_clef` (mnxconverter/mnx.py:246-250) reads `clef.position`, which `Clef`
  (mnxconverter/score.py:288-291) does not define, so the source raises AttributeError on
  every clef. The model instead encodes the supplied `PositionedClef`, whose sign and clef
  position are optional, and writes null for either one when it is missing.
- The accidental written for a double flat ("double-flat") is not a MusicXML import name,
  so it does not import back. `MnxCommon.AccidentalTablesAgree` states this.

## Findings

| source | as written | input that shows it | evidently intended | confidence | as-written member | corrected member |
|---|---|---|---|---|---|---|
| mnxconverter/score.py:123-129 | `iter_events` calls `item.iter_events()` on every non-event item, and an `OctaveShift` has no such method, so every score walk that reaches an inserted octave shift raises AttributeError | a part with `<octave-shift>` around a note in bar 1 and a slur or octave shift that looks up a note in bar 2: `get_event_containing_note` meets the marker in bar 1 first | walk past directions, which hold no events | high (not executed) | `ScoreModel.OctaveShiftBreaksLaterLookups` | `ScoreModel.WalkIsPrefix` |
| mnxconverter/musicxml.py:229-239 | `score_part_el.attrib['id']` raises KeyError, but the handler catches AttributeError, so the intended data error is never raised | a `<score-part>` without an `id` attribute | raise the "missing 'id'" NotationDataError | high (not executed) | `MusicXmlMarkers.MissingPartIdEscapes` | `MusicXmlMarkers.ParsePart` |
