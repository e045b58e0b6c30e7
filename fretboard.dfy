/**
 * The fretboard view's logic: the note at every string and fret, which
 * positions carry a drawn marker and how it is styled, and which frets
 * carry an inlay.
 */
module Fretboard {
  import opened Wrappers
  import opened Notes

  /** Frets drawn after the nut. */
  const FRET_COUNT: nat := 15

  /** One position of a string: its pitch class and its fret number (0 is the open string). */
  datatype FretNote = FretNote(note: NoteName, fret: nat)

  /** The positions of one string, frets 0 through FRET_COUNT. */
  function StringRow(open: NoteName): seq<FretNote>
  {
    seq(FRET_COUNT + 1, i requires 0 <= i <= FRET_COUNT => FretNote(Transpose(open, i), i))
  }

  /** The loop that fills one string's row, one fret at a time. */
  method BuildStringRow(open: NoteName) returns (row: seq<FretNote>)
    ensures row == StringRow(open)
  {
    var startIndex := RootIndex(open);
    row := [];
    for i := 0 to FRET_COUNT + 1
      invariant |row| == i
      invariant forall k :: 0 <= k < i ==> row[k] == FretNote(Transpose(open, k), k)
    {
      var noteIndex := (startIndex + i) % 12;
      assert NOTES[noteIndex] == Transpose(open, i);
      row := row + [FretNote(NOTES[noteIndex], i)];
    }
  }

  /**
   * A row has FRET_COUNT + 1 positions numbered 0, 1, 2, ... in order; it
   * starts on the open-string note, each fret is one semitone above the
   * previous one, and fret 12 repeats the open string an octave higher.
   */
  lemma {:induction false} StringRowShape(open: NoteName)
    ensures |StringRow(open)| == FRET_COUNT + 1 == 16
    ensures forall i :: 0 <= i < |StringRow(open)| ==> StringRow(open)[i].fret == i
    ensures StringRow(open)[0].note == open
    ensures forall i :: 0 <= i < FRET_COUNT ==>
      StringRow(open)[i + 1].note == SemitoneUp(StringRow(open)[i].note)
    ensures StringRow(open)[12].note == StringRow(open)[0].note
  {
    var row := StringRow(open);
    assert Distance(open, row[0].note) == Distance(open, open);
    DistanceDetermines(open, row[0].note, open);
    forall i | 0 <= i < FRET_COUNT
      ensures row[i + 1].note == SemitoneUp(row[i].note)
    {
      TransposeStep(open, i);
    }
    TransposeOctave(open, 0);
  }

  /** Fret `i` of a row reads the chromatic table at `indexOf(open)` plus `i`, modulo 12. */
  lemma StringRowFromTable(open: NoteName, i: nat)
    requires i <= FRET_COUNT
    ensures StringRow(open)[i] == FretNote(NOTES[(IndexOf(NOTES, open) + i) % 12], i)
  {
    IndexOfNote(open);
    assert StringRow(open)[i] == FretNote(Transpose(open, i), i);
  }

  /** `stringNotes`: one row per open string, in the order of STRINGS. */
  function StringNotes(): (rows: seq<seq<FretNote>>)
    ensures |rows| == |STRINGS|
    ensures forall s :: 0 <= s < |rows| ==> |rows[s]| == FRET_COUNT + 1 && rows[s][0].note == STRINGS[s]
  {
    var rows := seq(|STRINGS|, s requires 0 <= s < |STRINGS| => StringRow(STRINGS[s]));
    assert forall s :: 0 <= s < |rows| ==> rows[s][0].note == STRINGS[s] by {
      forall s | 0 <= s < |rows| ensures rows[s][0].note == STRINGS[s] {
        StringRowShape(STRINGS[s]);
      }
    }
    rows
  }

  /** A marker is drawn at a position whose note is highlighted, and at every open string. */
  predicate IsDrawn(pos: FretNote, highlight: seq<NoteName>)
  {
    pos.note in highlight || pos.fret == 0
  }

  /** The three looks of a drawn marker. */
  datatype Styling = RootStyle | HighlightStyle | DimStyle

  /** The root takes precedence over a highlight; anything else drawn is dim. */
  function StyleOf(pos: FretNote, highlight: seq<NoteName>, root: Option<NoteName>): Styling
  {
    if root == Some(pos.note) then RootStyle
    else if pos.note in highlight then HighlightStyle
    else DimStyle
  }

  /**
   * Root styling exactly when the note is the root; highlighted styling exactly
   * when it is highlighted and not the root; dim otherwise. A dim marker can
   * only be an open string, and a highlighted note is drawn at every fret.
   */
  lemma DrawnStyling(pos: FretNote, highlight: seq<NoteName>, root: Option<NoteName>)
    ensures StyleOf(pos, highlight, root) == RootStyle <==> root == Some(pos.note)
    ensures StyleOf(pos, highlight, root) == HighlightStyle <==> pos.note in highlight && root != Some(pos.note)
    ensures StyleOf(pos, highlight, root) == DimStyle <==> pos.note !in highlight && root != Some(pos.note)
    ensures IsDrawn(pos, highlight) && StyleOf(pos, highlight, root) == DimStyle ==> pos.fret == 0
    ensures pos.note in highlight ==> IsDrawn(pos, highlight)
  {
  }

  /** The inlay painted under a fret. */
  datatype Inlay = NoInlay | SingleDot | DoubleDot

  /**
   * The visible inlay: frets 12 and 24 show the double inlay (their single dot
   * is hidden), the other marker frets a single dot.
   */
  function InlayAt(fret: nat): Inlay
  {
    if fret == 12 || fret == 24 then DoubleDot
    else if fret in FRET_MARKERS then SingleDot
    else NoInlay
  }

  /** Inlays of the drawn frets 1 through FRET_COUNT, in order. */
  function DisplayedInlays(): (r: seq<Inlay>)
    ensures |r| == FRET_COUNT
  {
    seq(FRET_COUNT, i requires 0 <= i < FRET_COUNT => InlayAt(i + 1))
  }

  /** Double inlays sit on the octave frets, single ones on the other marker frets. */
  lemma InlayClassification(fret: nat)
    ensures InlayAt(fret) == DoubleDot <==> fret == 12 || fret == 24
    ensures InlayAt(fret) == SingleDot <==> fret in FRET_MARKERS && fret != 12 && fret != 24
    ensures InlayAt(fret) != NoInlay <==> fret in FRET_MARKERS
    ensures InlayAt(fret) == DoubleDot ==> fret % 12 == 0
  {
  }

  /** On the fifteen drawn frets: dots at 3, 5, 7, 9 and 15, the double inlay at 12. */
  lemma DisplayedInlayPattern()
    ensures DisplayedInlays() ==
      [NoInlay, NoInlay, SingleDot, NoInlay, SingleDot, NoInlay, SingleDot, NoInlay,
       SingleDot, NoInlay, NoInlay, DoubleDot, NoInlay, NoInlay, SingleDot]
  {
  }
}
