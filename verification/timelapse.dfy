/**
 Assembling a time-lapse: the gathered image paths are de-duplicated and put
 in natural order, the first image fixes the frame size (unless a size is
 given), and every image is then read and handed to the video writer at that
 size, unreadable ones being skipped and counted.  Pixels, decoding,
 resizing and encoding are opaque: an image is only its size, and reading is
 a function from path to an optional size.
 */
module Timelapse {
  import opened Common
  import opened NaturalKey
  import opened KeyOrder
  import opened Sorting

  // Every lemma here is marked {:induction false}, the non-recursive ones too:
  // otherwise Dafny adds an automatic induction hypothesis to each proof, and
  // over sequence parameters that quantifier makes the solver far slower.

  // ---------------------------------------------------------------------
  // De-duplication and natural order
  // ---------------------------------------------------------------------

  /** The key order is a strict order on paths. */
  lemma {:induction false} PrecedesIsStrictOrder()
    ensures StrictOrder(Precedes)
  {
    forall p
      ensures !Precedes(p, p)
    {
      LtIrreflexive(Key(p));
    }
    forall p, q, r | Precedes(p, q) && Precedes(q, r)
      ensures Precedes(p, r)
    {
      LtTransitive(Key(p), Key(q), Key(r));
    }
  }

  /** `sorted(set(files), key=natural_key)`: the distinct gathered paths in
      key order.  The order among paths with equal keys depends on the set's
      iteration order, left open here by an arbitrary choice. */
  method Normalize(gathered: seq<string>) returns (files: seq<string>)
    ensures Distinct(files)
    ensures forall f :: f in files <==> f in gathered
    ensures Sorted(files, Precedes)
  {
    PrecedesIsStrictOrder();
    var distinct := set f | f in gathered;
    files := SortSet(distinct, Precedes);
  }

  /** In the normalised list, wherever "img2.png" and "img10.png" of one
      directory both appear, the first comes earlier. */
  lemma {:induction false} TwoListedBeforeTen(files: seq<string>, dir: string, two: string, ten: string, i: nat, j: nat)
    // The names are parameters fixed by `requires` rather than literals in
    // the ensures: the solver would otherwise evaluate the key of each literal
    // character by character, which is far more costly.
    requires two == "img2.png" && ten == "img10.png"
    requires Sorted(files, Precedes)
    requires i < |files| && j < |files|
    requires files[i] == dir + [Separator] + two && files[j] == dir + [Separator] + ten
    ensures i < j
  {
    TwoBeforeTen(dir, two, ten);
    PrecedesIsStrictOrder();
    SortedPlacesLessFirst(files, Precedes, i, j);
  }

  // ---------------------------------------------------------------------
  // The frame loop
  // ---------------------------------------------------------------------

  /** Width and height of an image, in pixels. */
  datatype Size = Size(width: nat, height: nat)

  /** A frame handed to the writer: the file it was read from, its size, and
      whether it went through a resize on the way. */
  datatype Frame = Frame(source: string, size: Size, resized: bool)

  /** What the loop produced: the frames written, in order, and the number of
      unreadable files skipped. */
  datatype Tally = Tally(frames: seq<Frame>, skipped: nat)

  /** The frame size: the requested one, else the first image's. */
  function TargetSize(first: Size, resizeTo: Option<Size>): Size {
    match resizeTo
    case Some(size) => size
    case None => first
  }

  /** One readable image on its way to the writer: always resized when a size
      was requested, otherwise only when it differs from the target. */
  function FrameOf(source: string, size: Size, target: Size, resizeTo: Option<Size>): Frame {
    if resizeTo.Some? || size != target then Frame(source, target, true)
    else Frame(source, size, false)
  }

  /** What reading each file gives. */
  function Images(files: seq<string>, read: string -> Option<Size>): seq<Option<Size>> {
    seq(|files|, i requires 0 <= i < |files| => read(files[i]))
  }

  /** The loop over the files: unreadable ones are counted, readable ones
      become frames of the target size. */
  function Walk(files: seq<string>, read: string -> Option<Size>, target: Size, resizeTo: Option<Size>): (tally: Tally)
    ensures |tally.frames| + tally.skipped == |files|
    ensures forall k :: 0 <= k < |tally.frames| ==>
              && tally.frames[k].size == target
              && tally.frames[k].source in files
              && read(tally.frames[k].source).Some?
    ensures forall k :: 0 <= k < |tally.frames| ==>
              (!tally.frames[k].resized <==> resizeTo.None? && read(tally.frames[k].source) == Some(target))
    ensures |files| > 0 && read(files[0]).Some? ==> |tally.frames| > 0 && tally.frames[0].source == files[0]
  {
    if |files| == 0 then Tally([], 0)
    else
      var rest := Walk(files[1..], read, target, resizeTo);
      match read(files[0])
      case None =>
        assert forall i :: 0 < i < |files| ==> files[i] == files[1..][i - 1];
        Tally(rest.frames, rest.skipped + 1)
      case Some(size) =>
        var frames := [FrameOf(files[0], size, target, resizeTo)] + rest.frames;
        assert forall k :: 0 < k < |frames| ==> frames[k] == rest.frames[k - 1];
        Tally(frames, rest.skipped)
  }

  /** The skipped count is the number of unreadable images. */
  lemma {:induction false} WalkCountsUnreadable(files: seq<string>, read: string -> Option<Size>, target: Size, resizeTo: Option<Size>)
    ensures Walk(files, read, target, resizeTo).skipped == multiset(Images(files, read))[None]
    decreases |files|
  {
    if |files| > 0 {
      WalkCountsUnreadable(files[1..], read, target, resizeTo);
      assert Images(files, read) == [read(files[0])] + Images(files[1..], read);
    }
  }

  /** One step of the loop: the frames of a non-empty list are those of its
      tail, behind the first file's frame when that file is readable. */
  lemma {:induction false} WalkStep(files: seq<string>, read: string -> Option<Size>, target: Size, resizeTo: Option<Size>)
    requires |files| > 0
    ensures Walk(files, read, target, resizeTo).frames ==
              if read(files[0]).Some?
              then [FrameOf(files[0], read(files[0]).value, target, resizeTo)] + Walk(files[1..], read, target, resizeTo).frames
              else Walk(files[1..], read, target, resizeTo).frames
  {
  }

  /** The files that read successfully, in list order. */
  function Readable(files: seq<string>, read: string -> Option<Size>): seq<string> {
    if |files| == 0 then []
    else if read(files[0]).Some? then [files[0]] + Readable(files[1..], read)
    else Readable(files[1..], read)
  }

  /** The source file of each frame, in order. */
  function Sources(frames: seq<Frame>): seq<string> {
    seq(|frames|, k requires 0 <= k < |frames| => frames[k].source)
  }

  lemma {:induction false} SourcesCons(f: Frame, frames: seq<Frame>)
    ensures Sources([f] + frames) == [f.source] + Sources(frames)
  {
    assert forall k :: 0 < k <= |frames| ==> ([f] + frames)[k] == frames[k - 1];
  }

  /** The frames come from exactly the readable files, one each, in list
      order. */
  lemma {:induction false} WalkSources(files: seq<string>, read: string -> Option<Size>, target: Size, resizeTo: Option<Size>)
    ensures Sources(Walk(files, read, target, resizeTo).frames) == Readable(files, read)
    decreases |files|
  {
    if |files| > 0 {
      var frames := Walk(files, read, target, resizeTo).frames;
      var rest := Walk(files[1..], read, target, resizeTo).frames;
      WalkStep(files, read, target, resizeTo);
      WalkSources(files[1..], read, target, resizeTo);
      if read(files[0]).Some? {
        SourcesCons(FrameOf(files[0], read(files[0]).value, target, resizeTo), rest);
      }
    }
  }

  lemma {:induction false} ReadableHolds(files: seq<string>, read: string -> Option<Size>, i: nat)
    requires i < |files| && read(files[i]).Some?
    ensures files[i] in Readable(files, read)
    decreases i
  {
    if i > 0 {
      assert files[i] == files[1..][i - 1];
      ReadableHolds(files[1..], read, i - 1);
    }
  }

  /** Every readable file is written as some frame. */
  lemma {:induction false} EveryReadableFileWritten(files: seq<string>, read: string -> Option<Size>, target: Size, resizeTo: Option<Size>, i: nat)
    requires i < |files| && read(files[i]).Some?
    ensures exists k :: 0 <= k < |Walk(files, read, target, resizeTo).frames|
                        && Walk(files, read, target, resizeTo).frames[k].source == files[i]
  {
    var frames := Walk(files, read, target, resizeTo).frames;
    WalkSources(files, read, target, resizeTo);
    ReadableHolds(files, read, i);
    var k :| 0 <= k < |frames| && Sources(frames)[k] == files[i];
    assert frames[k].source == files[i];
  }

  // ---------------------------------------------------------------------
  // The whole run
  // ---------------------------------------------------------------------

  /** Why a run stops. */
  datatype Failure =
    | NoImages                      // nothing matched: FileNotFoundError
    | FirstUnreadable(path: string) // the first file cannot be read: ValueError
    | WriterNotOpened               // the video writer refused to open: RuntimeError

  /** A finished run: the frame size, the frames written, and the two counts
      it reports ("frames used" and "skipped unreadable"). */
  datatype Report = Report(size: Size, frames: seq<Frame>, used: nat, skipped: nat)

  /** Everything after normalisation, for an already ordered file list.
      `writerOpens` is whether the encoder accepted the output settings. */
  function Assemble(files: seq<string>, read: string -> Option<Size>, resizeTo: Option<Size>, writerOpens: bool): (r: Result<Report, Failure>)
    ensures r == Err(NoImages) <==> |files| == 0
    ensures r.Err? && r.error.FirstUnreadable? <==> |files| > 0 && read(files[0]).None?
    ensures r.Err? && r.error.FirstUnreadable? ==> r.error.path == files[0]
    ensures r == Err(WriterNotOpened) <==> |files| > 0 && read(files[0]).Some? && !writerOpens
    ensures r.Ok? ==>
              && r.value.size == (if resizeTo.Some? then resizeTo.value else read(files[0]).value)
              && r.value.used == |r.value.frames|
              && r.value.used + r.value.skipped == |files|
              && r.value.skipped == multiset(Images(files, read))[None]
              && (forall k :: 0 <= k < |r.value.frames| ==> r.value.frames[k].size == r.value.size)
              && |r.value.frames| > 0 && r.value.frames[0].source == files[0]
  {
    if |files| == 0 then Err(NoImages)
    else
      match read(files[0])
      case None => Err(FirstUnreadable(files[0]))
      case Some(first) =>
        var target := TargetSize(first, resizeTo);
        if !writerOpens then Err(WriterNotOpened)
        else
          var tally := Walk(files, read, target, resizeTo);
          WalkCountsUnreadable(files, read, target, resizeTo);
          Ok(Report(target, tally.frames, |files| - tally.skipped, tally.skipped))
  }

  /** The whole procedure on the gathered paths: normalise, then assemble.
      Returns the ordered file list alongside the outcome. */
  method MakeTimelapse(gathered: seq<string>, read: string -> Option<Size>, resizeTo: Option<Size>, writerOpens: bool)
    returns (files: seq<string>, r: Result<Report, Failure>)
    ensures Distinct(files) && Sorted(files, Precedes)
    ensures forall f :: f in files <==> f in gathered
    ensures r == Err(NoImages) <==> |gathered| == 0
    ensures r == Assemble(files, read, resizeTo, writerOpens)
  {
    files := Normalize(gathered);
    if |gathered| > 0 {
      assert gathered[0] in files;
    }
    if |files| > 0 {
      assert files[0] in gathered;
    }
    r := Assemble(files, read, resizeTo, writerOpens);
  }
}
