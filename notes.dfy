/**
 * Pitch-class arithmetic of the guitar tutor: the note-name type, the
 * constant tables (chromatic scale, open strings, fret markers, scale
 * interval lists) and the mapping of an interval list onto note names.
 */
module Notes {

  /** The twelve pitch classes, sharps only, as the source's `NoteName` union. */
  datatype NoteName = C | CSharp | D | DSharp | E | F | FSharp | G | GSharp | A | ASharp | B

  /** The chromatic scale starting at C. */
  const NOTES: seq<NoteName> := [C, CSharp, D, DSharp, E, F, FSharp, G, GSharp, A, ASharp, B]

  /** Open strings, from the high E (string 1) down to the low E (string 6). */
  const STRINGS: seq<NoteName> := [E, B, G, D, A, E]

  /** Frets that carry an inlay on a real guitar neck. */
  const FRET_MARKERS: seq<nat> := [3, 5, 7, 9, 12, 15, 17, 19, 21, 24]

  /** The keys of the scale table. */
  datatype ScaleType = Major | Minor | PentatonicMinor | PentatonicMajor | Blues

  /** Semitone offsets from the root for each scale. */
  function Intervals(s: ScaleType): seq<nat>
  {
    match s
    case Major => [0, 2, 4, 5, 7, 9, 11]
    case Minor => [0, 2, 3, 5, 7, 8, 10]
    case PentatonicMinor => [0, 3, 5, 7, 10]
    case PentatonicMajor => [0, 2, 4, 7, 9]
    case Blues => [0, 3, 5, 6, 7, 10]
  }

  /** Array.prototype.indexOf: the first position of `x` in `s`, or -1. */
  function IndexOf<T(==)>(s: seq<T>, x: T): (i: int)
    ensures i == -1 <==> x !in s
    ensures i != -1 ==> 0 <= i < |s| && s[i] == x && x !in s[..i]
  {
    if |s| == 0 then -1
    else if s[0] == x then 0
    else
      var j := IndexOf(s[1..], x);
      if j == -1 then -1
      else
        assert s[..j + 1] == [s[0]] + s[1..][..j];
        j + 1
  }

  /** In a sequence without repetitions, `indexOf` finds an element at its one position. */
  lemma IndexOfDistinct<T>(s: seq<T>, x: T, r: nat)
    requires r < |s| && s[r] == x
    requires forall i, j :: 0 <= i < j < |s| ==> s[i] != s[j]
    ensures IndexOf(s, x) == r
  {
    var k := IndexOf(s, x);
    assert x in s;
    assert s[k] == s[r];
  }

  /** The twelve names of the chromatic scale are pairwise distinct. */
  lemma NotesDistinct()
    ensures |NOTES| == 12
    ensures forall i, j :: 0 <= i < j < |NOTES| ==> NOTES[i] != NOTES[j]
  {
  }

  /** The position of each name in the chromatic table. */
  function RootIndex(n: NoteName): (i: nat)
    ensures i < 12 && NOTES[i] == n
  {
    match n
    case C => 0
    case CSharp => 1
    case D => 2
    case DSharp => 3
    case E => 4
    case F => 5
    case FSharp => 6
    case G => 7
    case GSharp => 8
    case A => 9
    case ASharp => 10
    case B => 11
  }

  /** `NOTES.indexOf(n)` finds every note name, at the position given above, so it lies in [0, 12). */
  lemma IndexOfNote(n: NoteName)
    ensures IndexOf(NOTES, n) == RootIndex(n)
    ensures 0 <= IndexOf(NOTES, n) < 12
  {
    NotesDistinct();
    IndexOfDistinct(NOTES, n, RootIndex(n));
  }

  /** The index of the name at position `m` is `m` again: index and name are inverse. */
  lemma RootIndexOfNote(m: nat)
    requires m < 12
    ensures RootIndex(NOTES[m]) == m
  {
    NotesDistinct();
  }

  /** Euclidean remainder of a difference of two indexes within one octave. */
  lemma SmallMod(d: int)
    requires -12 < d < 12
    ensures d % 12 == if d >= 0 then d else d + 12
  {
  }

  /** Climbing `k` semitones from index `i` and measuring back gives `k` modulo 12. */
  lemma ModShift(i: int, k: nat)
    requires 0 <= i < 12
    ensures ((i + k) % 12 - i) % 12 == k % 12
  {
    var q, r := k / 12, k % 12;
    assert k == 12 * q + r;
    var m := if i + r < 12 then i + r else i + r - 12;
    assert i + k == 12 * (if i + r < 12 then q else q + 1) + m;
    assert (i + k) % 12 == m;
    SmallMod(m - i);
  }

  /** The successor of a number, taken modulo 12. */
  lemma ModSucc(a: nat)
    ensures (a + 1) % 12 == (a % 12 + 1) % 12
  {
    var q, m := a / 12, a % 12;
    assert a == 12 * q + m;
    if m + 1 < 12 {
      assert a + 1 == 12 * q + (m + 1);
    } else {
      assert a + 1 == 12 * (q + 1);
    }
  }

  /** How many semitones one climbs from `a` to reach the pitch class `b`. */
  function Distance(a: NoteName, b: NoteName): nat
  {
    (RootIndex(b) - RootIndex(a)) % 12
  }

  /** `NOTES[(indexOf(n) + k) % 12]`: the note `k` semitones above `n`. */
  function Transpose(n: NoteName, k: nat): (r: NoteName)
    ensures Distance(n, r) == k % 12
  {
    var m := (RootIndex(n) + k) % 12;
    RootIndexOfNote(m);
    ModShift(RootIndex(n), k);
    NOTES[m]
  }

  /** One fret up: the chromatic successor, wrapping from B back to C. */
  function SemitoneUp(n: NoteName): (r: NoteName)
    ensures RootIndex(r) == (RootIndex(n) + 1) % 12
  {
    match n
    case C => CSharp
    case CSharp => D
    case D => DSharp
    case DSharp => E
    case E => F
    case F => FSharp
    case FSharp => G
    case G => GSharp
    case GSharp => A
    case A => ASharp
    case ASharp => B
    case B => C
  }

  /** A pitch class is determined by its distance from any fixed reference note. */
  lemma DistanceDetermines(n: NoteName, x: NoteName, y: NoteName)
    requires Distance(n, x) == Distance(n, y)
    ensures x == y
  {
    var ix: int, iy: int := RootIndex(x), RootIndex(y);
    var i: int := RootIndex(n);
    SmallMod(ix - i);
    SmallMod(iy - i);
    assert ix == iy;
    assert NOTES[ix] == x && NOTES[iy] == y;
  }

  /** Transposing by `k + 1` is one semitone above transposing by `k`. */
  lemma TransposeStep(n: NoteName, k: nat)
    ensures Transpose(n, k + 1) == SemitoneUp(Transpose(n, k))
  {
    var i := RootIndex(n);
    var m := (i + k) % 12;
    ModSucc(i + k);
    RootIndexOfNote(m);
    RootIndexOfNote((m + 1) % 12);
    assert RootIndex(SemitoneUp(NOTES[m])) == (m + 1) % 12;
  }

  /** Intervals `k` and `k + 12` name the same pitch class. */
  lemma TransposeOctave(n: NoteName, k: nat)
    ensures Transpose(n, k + 12) == Transpose(n, k)
  {
    DistanceDetermines(n, Transpose(n, k + 12), Transpose(n, k));
  }

  /** `getScaleNotes`: the note at each interval above `root`. */
  function GetScaleNotes(root: NoteName, intervals: seq<nat>): (r: seq<NoteName>)
    ensures |r| == |intervals|
    ensures forall i :: 0 <= i < |r| ==> Distance(root, r[i]) == intervals[i] % 12
  {
    seq(|intervals|, i requires 0 <= i < |intervals| => Transpose(root, intervals[i]))
  }

  /** Each scale note is the chromatic table read at `indexOf(root)` plus the interval, modulo 12. */
  lemma ScaleNoteFromTable(root: NoteName, intervals: seq<nat>, i: nat)
    requires i < |intervals|
    ensures 0 <= IndexOf(NOTES, root) < 12
    ensures GetScaleNotes(root, intervals)[i] == NOTES[(IndexOf(NOTES, root) + intervals[i]) % 12]
  {
    IndexOfNote(root);
    assert GetScaleNotes(root, intervals)[i] == Transpose(root, intervals[i]);
  }

  /** An interval list as the scale table holds it: from 0, strictly rising, within one octave. */
  ghost predicate WellFormedIntervals(intervals: seq<nat>)
  {
    && |intervals| > 0
    && intervals[0] == 0
    && (forall i, j :: 0 <= i < j < |intervals| ==> intervals[i] < intervals[j])
    && (forall i :: 0 <= i < |intervals| ==> intervals[i] < 12)
  }

  /** Every entry of the scale table is well formed. */
  lemma ScalesWellFormed(s: ScaleType)
    ensures WellFormedIntervals(Intervals(s))
  {
  }

  /** A scale whose intervals start at 0 starts on its root. */
  lemma ScaleStartsOnRoot(root: NoteName, intervals: seq<nat>)
    requires |intervals| > 0 && intervals[0] == 0
    ensures GetScaleNotes(root, intervals)[0] == root
  {
    var r := GetScaleNotes(root, intervals);
    assert Distance(root, r[0]) == Distance(root, root);
    DistanceDetermines(root, r[0], root);
  }

  /** Distinct intervals within one octave give pairwise distinct notes. */
  lemma ScaleNotesDistinct(root: NoteName, intervals: seq<nat>)
    requires forall i, j :: 0 <= i < j < |intervals| ==> intervals[i] < intervals[j]
    requires forall i :: 0 <= i < |intervals| ==> intervals[i] < 12
    ensures forall i, j :: 0 <= i < j < |intervals| ==>
      GetScaleNotes(root, intervals)[i] != GetScaleNotes(root, intervals)[j]
  {
    var r := GetScaleNotes(root, intervals);
    forall i, j | 0 <= i < j < |intervals| ensures r[i] != r[j] {
      SmallMod(intervals[i]);
      SmallMod(intervals[j]);
    }
  }

  /** For every scale of the table: the root comes first and no note repeats. */
  lemma ScaleTableNotes(root: NoteName, s: ScaleType)
    ensures GetScaleNotes(root, Intervals(s))[0] == root
    ensures forall i, j :: 0 <= i < j < |Intervals(s)| ==>
      GetScaleNotes(root, Intervals(s))[i] != GetScaleNotes(root, Intervals(s))[j]
  {
    ScalesWellFormed(s);
    ScaleStartsOnRoot(root, Intervals(s));
    ScaleNotesDistinct(root, Intervals(s));
  }

  /** Raising any interval by an octave leaves the scale's notes unchanged. */
  lemma ScaleOctaveInvariant(root: NoteName, intervals: seq<nat>, raised: seq<nat>)
    requires |raised| == |intervals|
    requires forall i :: 0 <= i < |intervals| ==> raised[i] == intervals[i] + 12
    ensures GetScaleNotes(root, raised) == GetScaleNotes(root, intervals)
  {
    forall i | 0 <= i < |intervals|
      ensures GetScaleNotes(root, raised)[i] == GetScaleNotes(root, intervals)[i]
    {
      TransposeOctave(root, intervals[i]);
    }
  }
}
