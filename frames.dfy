/**
 * Frame numbering and file naming: the counter `fileCount`, the current
 * path `fullFileName` and the list of image files written so far. Every
 * written file is one frame of the animation; `updateGraph` writes
 * `vidFrames` identical copies of the current picture.
 *
 * Every path the visualizer produces is `getFileName(count)` for some
 * counter, so the state below records counters: `current` is the counter
 * `fullFileName` was built from (None while it is still the initial ""),
 * `written` the counters of the files handed to `write_png`. `FullFileName`
 * and `WrittenFiles` turn them back into the paths.
 */
module Frames {
  import opened Wrappers
  import opened PyFormat

  /** The file-related part of a visualizer. */
  datatype Files = Files(
    fileDir: string,
    fileName: string,
    fileExt: string,
    vidFrames: int,
    fileCount: int,
    current: Option<int>,
    written: seq<int>)

  /** `getFileName(count)`: directory, base name, `'%05d' % count` and extension. */
  function FileNameFor(f: Files, count: int): string
  {
    f.fileDir + f.fileName + Format05d(count) + f.fileExt
  }

  /** `self.fullFileName`. */
  function FullFileName(f: Files): string
  {
    match f.current
    case None => ""
    case Some(count) => FileNameFor(f, count)
  }

  /** The paths of the files numbered by `counts`, in order. */
  function Paths(f: Files, counts: seq<int>): (r: seq<string>)
    ensures |r| == |counts|
  {
    if counts == [] then [] else Paths(f, counts[..|counts| - 1]) + [FileNameFor(f, counts[|counts| - 1])]
  }

  /** The paths handed to `write_png`, in order. */
  function WrittenFiles(f: Files): seq<string>
  {
    Paths(f, f.written)
  }

  /** A freshly constructed visualizer: `fullFileName` is "" and nothing is written. */
  function InitialFiles(fileDir: string, fileName: string, fileExt: string, vidFrames: int, fileCount: int): (f: Files)
    ensures FullFileName(f) == "" && WrittenFiles(f) == []
  {
    Files(fileDir, fileName, fileExt, vidFrames, fileCount, None, [])
  }

  /** `setFileName()`: the current path is the name of the current counter. */
  function SetFileName(f: Files): (g: Files)
    ensures FullFileName(g) == FileNameFor(f, f.fileCount)
  {
    f.(current := Some(f.fileCount))
  }

  /** `write_png(self.fullFileName)`, for a named current path. */
  function WritePng(f: Files): Files
    requires f.current.Some?
  {
    f.(written := f.written + [f.current.value])
  }

  /** Writing the image adds the current path to the written files and keeps the current path. */
  lemma WritePngAppends(f: Files)
    requires f.current.Some?
    ensures WrittenFiles(WritePng(f)) == WrittenFiles(f) + [FullFileName(f)]
    ensures FullFileName(WritePng(f)) == FullFileName(f)
  {
    var g := WritePng(f);
    assert g.written[..|g.written| - 1] == f.written;
    PathsSameNaming(f, g, f.written);
  }

  /** One pass of `updateGraph`'s loop: count one more frame, rename, write the image. */
  function WriteFrame(f: Files): Files
  {
    WritePng(SetFileName(f.(fileCount := f.fileCount + 1)))
  }

  /** `step` applied `k` times to `x`. */
  function Iterate<T>(step: T -> T, x: T, k: nat): T
  {
    if k == 0 then x else step(Iterate(step, x, k - 1))
  }

  lemma {:induction false} IterateAdditive<T>(step: T -> T, x: T, a: nat, b: nat)
    ensures Iterate(step, Iterate(step, x, a), b) == Iterate(step, x, a + b)
  {
    if b > 0 {
      IterateAdditive(step, x, a, b - 1);
    }
  }

  /**
   * The states after steps 1, 3, ..., 2k - 1 of `step` from `x`, then after
   * step 2k + 1 when `last`: the first of each pair of steps.
   */
  function OddSteps<T>(step: T -> T, x: T, k: nat, last: bool): seq<T>
    decreases k
  {
    if k == 0 then (if last then [step(x)] else [])
    else [step(x)] + OddSteps(step, Iterate(step, x, 2), k - 1, last)
  }

  lemma {:induction false} OddStepsAt<T>(step: T -> T, x: T, k: nat, last: bool)
    ensures var r := OddSteps(step, x, k, last);
      && |r| == k + (if last then 1 else 0)
      && (forall i :: 0 <= i < k ==> r[i] == Iterate(step, x, 2 * i + 1))
      && (last ==> r[k] == Iterate(step, x, 2 * k + 1))
    decreases k
  {
    var r := OddSteps(step, x, k, last);
    assert Iterate(step, x, 1) == step(x);
    if k > 0 {
      var y := Iterate(step, x, 2);
      OddStepsAt(step, y, k - 1, last);
      var r' := OddSteps(step, y, k - 1, last);
      assert r == [step(x)] + r';
      forall i | 0 < i < k
        ensures r[i] == Iterate(step, x, 2 * i + 1)
      {
        assert r[i] == r'[i - 1];
        IterateAdditive(step, x, 2, 2 * (i - 1) + 1);
      }
      if last {
        assert r[k] == r'[k - 1];
        IterateAdditive(step, x, 2, 2 * (k - 1) + 1);
      }
    }
  }

  /** The state after `k` passes of `updateGraph`'s loop. */
  function Advance(f: Files, k: nat): Files
  {
    Iterate(WriteFrame, f, k)
  }

  /** How many copies `updateGraph` writes: `range(0, vidFrames)` is empty when `vidFrames <= 0`. */
  function Copies(f: Files): nat
  {
    if f.vidFrames > 0 then f.vidFrames else 0
  }

  /** `updateGraph()`, on the file state. */
  function UpdateGraph(f: Files): Files
  {
    Advance(f, Copies(f))
  }

  /** The counters `first`, `first + 1`, ..., `first + k - 1`. */
  function Run(first: int, k: nat): (r: seq<int>)
    ensures |r| == k
    ensures forall i :: 0 <= i < k ==> r[i] == first + i
  {
    if k == 0 then [] else Run(first, k - 1) + [first + k - 1]
  }

  /** Two file states that agree on the naming settings name every counter alike. */
  predicate SameNaming(f: Files, g: Files)
  {
    f.fileDir == g.fileDir && f.fileName == g.fileName && f.fileExt == g.fileExt
    && f.vidFrames == g.vidFrames
  }

  /** Writing frames never changes the naming settings or the number of copies. */
  lemma {:induction false} AdvanceKeepsNaming(f: Files, k: nat)
    ensures SameNaming(Advance(f, k), f)
    ensures Copies(Advance(f, k)) == Copies(f)
  {
    if k > 0 {
      AdvanceKeepsNaming(f, k - 1);
    }
  }

  /**
   * After `k` frame writes the counter has grown by exactly `k`, the files
   * written carry the consecutive counters old+1 .. old+k, and the current
   * path is that of the last one; the naming settings are untouched.
   */
  lemma {:induction false} AdvanceFrames(f: Files, k: nat)
    ensures SameNaming(Advance(f, k), f)
    ensures Advance(f, k).fileCount == f.fileCount + k
    ensures Advance(f, k).written == f.written + Run(f.fileCount + 1, k)
    ensures k > 0 ==> Advance(f, k).current == Some(f.fileCount + k)
    ensures k == 0 ==> Advance(f, k) == f
  {
    if k > 0 {
      AdvanceFrames(f, k - 1);
      var g := Advance(f, k - 1);
      assert f.written + Run(f.fileCount + 1, k)
          == (f.written + Run(f.fileCount + 1, k - 1)) + [f.fileCount + k];
    }
  }

  /** Writing `a` frames and then `b` more is writing `a + b` frames. */
  lemma AdvanceAdditive(f: Files, a: nat, b: nat)
    ensures Advance(Advance(f, a), b) == Advance(f, a + b)
  {
    IterateAdditive(WriteFrame, f, a, b);
  }

  /** `c` added up `n` times. */
  function Times(c: nat, n: nat): nat
  {
    if n == 0 then 0 else Times(c, n - 1) + c
  }

  lemma {:induction false} TimesIsProduct(c: nat, n: nat)
    ensures Times(c, n) == c * n
  {
    if n > 0 {
      TimesIsProduct(c, n - 1);
      assert c * (n - 1) + c == c * n;
    }
  }

  /** `n` calls of `updateGraph` write `vidFrames` frames each (none when it is not positive). */
  lemma {:induction false} UpdateGraphRepeated(f: Files, n: nat)
    ensures Iterate(UpdateGraph, f, n) == Advance(f, Times(Copies(f), n))
  {
    if n > 0 {
      UpdateGraphRepeated(f, n - 1);
      var m := Times(Copies(f), n - 1);
      AdvanceKeepsNaming(f, m);
      AdvanceAdditive(f, m, Copies(f));
    }
  }

  /** Two states with the same directory, base name and extension give the same paths to the same counters. */
  lemma {:induction false} PathsSameNaming(f: Files, g: Files, counts: seq<int>)
    requires f.fileDir == g.fileDir && f.fileName == g.fileName && f.fileExt == g.fileExt
    ensures Paths(f, counts) == Paths(g, counts)
  {
    if counts != [] {
      PathsSameNaming(f, g, counts[..|counts| - 1]);
    }
  }

  /** The paths of two runs of counters, one after the other, are the paths of both. */
  lemma {:induction false} PathsAppend(f: Files, a: seq<int>, b: seq<int>)
    ensures Paths(f, a + b) == Paths(f, a) + Paths(f, b)
  {
    if b == [] {
      assert a + b == a;
    } else {
      assert (a + b)[..|a + b| - 1] == a + b[..|b| - 1];
      PathsAppend(f, a, b[..|b| - 1]);
    }
  }

  /**
   * `updateGraph` raises the counter by `vidFrames` (by nothing when that
   * is not positive), writes the files `getFileName(old + 1)` ..
   * `getFileName(old + vidFrames)` in order, and leaves
   * `fullFileName == getFileName(fileCount)` when it wrote any; otherwise
   * nothing changes.
   */
  lemma UpdateGraphFrames(f: Files)
    ensures var g := UpdateGraph(f);
      && SameNaming(g, f)
      && g.fileCount == f.fileCount + Copies(f)
      && WrittenFiles(g) == WrittenFiles(f) + Paths(f, Run(f.fileCount + 1, Copies(f)))
      && (Copies(f) > 0 ==> FullFileName(g) == FileNameFor(g, g.fileCount))
      && (Copies(f) == 0 ==> g == f)
  {
    var g := UpdateGraph(f);
    AdvanceFrames(f, Copies(f));
    PathsSameNaming(g, f, g.written);
    PathsAppend(f, f.written, Run(f.fileCount + 1, Copies(f)));
  }

  /** Frames with different counters in 0..99999 never share a file name. */
  lemma {:induction false} FileNamesDistinct(f: Files, a: int, b: int)
    requires 0 <= a <= 99999 && 0 <= b <= 99999 && a != b
    ensures FileNameFor(f, a) != FileNameFor(f, b)
  {
    if FileNameFor(f, a) == FileNameFor(f, b) {
      var pre := f.fileDir + f.fileName;
      Format05dWidth(a);
      Format05dWidth(b);
      var na, nb := FileNameFor(f, a), FileNameFor(f, b);
      assert na[|pre|..|pre| + 5] == Format05d(a);
      assert nb[|pre|..|pre| + 5] == Format05d(b);
      Format05dInjective(a, b);
    }
  }

  /** The example of the naming scheme: frame 5 of `bst_graph.png` frames in `/tmp/`. */
  lemma FileNameExample(f: Files)
    requires f.fileDir == "/tmp/" && f.fileName == "bst_graph" && f.fileExt == ".png"
    ensures FileNameFor(f, 5) == "/tmp/bst_graph00005.png"
  {
    assert Digits(5) == "5";
    assert Zeros(4) == "0000";
    assert Format05d(5) == "00005";
  }
}
