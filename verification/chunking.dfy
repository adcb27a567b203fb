/** The slicing arithmetic of the two chunking loops: the upload loop that
    grows the sample list 40 at a time, and the download loop that reads it
    back in windows of 50. */
module Chunking {

  /** Samples added by each pass of the upload loop. The comment above the
      loop speaks of increments of 100; the loop itself steps by 40. */
  const UploadChunk: nat := 40

  /** Width of each `sample_range` window of the download loop. */
  const RangeSize: nat := 50

  function Min(a: nat, b: nat): nat {
    if a <= b then a else b
  }

  /** `s.slice(0, end)`: JavaScript clamps an end past the length. */
  function Prefix<T>(s: seq<T>, end: nat): seq<T> {
    s[..Min(end, |s|)]
  }

  /** The number of passes of `for (i = 0; i < n; i += 40)`: ceil(n / 40). */
  function UploadPasses(n: nat): nat {
    (n + UploadChunk - 1) / UploadChunk
  }

  /** Pass k (loop index i = 40 * k) runs exactly when k < UploadPasses(n). */
  lemma UploadPassRuns(n: nat, k: nat)
    ensures UploadChunk * k < n <==> k < UploadPasses(n)
  {
  }

  /** The samples the upload has sent before pass k: `samples.slice(0, 40 * k)`. */
  function Uploaded<T>(s: seq<T>, k: nat): seq<T> {
    Prefix(s, UploadChunk * k)
  }

  /** Each pass extends the previous snapshot's samples, by at most 40 and
      by at least one while the loop still runs; after the last pass the
      whole list has been sent. */
  lemma UploadGrowth<T>(s: seq<T>, k: nat)
    ensures Uploaded(s, k) <= Uploaded(s, k + 1)
    ensures |Uploaded(s, k + 1)| - |Uploaded(s, k)| <= UploadChunk
    ensures k < UploadPasses(|s|) <==> |Uploaded(s, k)| < |Uploaded(s, k + 1)|
    ensures k + 1 == UploadPasses(|s|) ==> Uploaded(s, k + 1) == s
    ensures Uploaded(s, UploadPasses(|s|)) == s
  {
    UploadPassRuns(|s|, k);
  }

  /** The slice that a server honouring `sample_range=i-(i+50)` returns for
      window k, whose start is i = 50 * k. */
  function Window<T>(s: seq<T>, k: nat): seq<T> {
    s[Min(RangeSize * k, |s|)..Min(RangeSize * k + RangeSize, |s|)]
  }

  /** The number of non-empty windows of an n-element list: ceil(n / 50). */
  function RangeWindows(n: nat): nat {
    (n + RangeSize - 1) / RangeSize
  }

  /** Appending window k to what windows 0 .. k-1 gave extends the prefix
      by that window; the window is empty exactly from window
      RangeWindows(n) on. */
  lemma WindowStep<T>(s: seq<T>, k: nat)
    ensures Prefix(s, RangeSize * k) + Window(s, k) == Prefix(s, RangeSize * (k + 1))
    ensures |Window(s, k)| == 0 <==> RangeWindows(|s|) <= k
  {
    WindowAppend(s, k);
  }

  /** Appending window k to the prefix before it gives the prefix before
      window k + 1. */
  lemma WindowAppend<T>(s: seq<T>, k: nat)
    ensures Prefix(s, RangeSize * k) + Window(s, k) == Prefix(s, RangeSize * (k + 1))
  {
    assert RangeSize * (k + 1) == RangeSize * k + RangeSize;
  }

  /** Window k followed by everything after it is everything from window
      k's start; from window RangeWindows(n) on, nothing is left. */
  lemma WindowTail<T>(s: seq<T>, k: nat)
    ensures Window(s, k) + s[Min(RangeSize * (k + 1), |s|)..] == s[Min(RangeSize * k, |s|)..]
    ensures RangeWindows(|s|) <= k ==> s[Min(RangeSize * k, |s|)..] == []
    ensures RangeWindows(|s|) <= k ==> Prefix(s, RangeSize * k) == s
  {
    WindowStep(s, k);
  }

  /** Windows k .. k+m-1 of `s`, concatenated in order. */
  function Windowed<T>(s: seq<T>, k: nat, m: nat): seq<T>
    decreases m
  {
    if m == 0 then [] else Window(s, k) + Windowed(s, k + 1, m - 1)
  }

  /** Windows k .. k+m-1 extend the prefix before window k to the prefix
      before window k + m. */
  lemma {:induction false} WindowsFill<T>(s: seq<T>, k: nat, m: nat)
    ensures Prefix(s, RangeSize * k) + Windowed(s, k, m) == Prefix(s, RangeSize * (k + m))
    decreases m
  {
    if m > 0 {
      var before := Prefix(s, RangeSize * k);
      var rest := Windowed(s, k + 1, m - 1);
      assert before + (Window(s, k) + rest) == (before + Window(s, k)) + rest;
      WindowAppend(s, k);
      WindowsFill(s, k + 1, m - 1);
      assert k + 1 + (m - 1) == k + m;
    }
  }

  /** All windows up to the first empty one, concatenated, give back the
      whole list. */
  lemma WindowsCover<T>(s: seq<T>)
    ensures Windowed(s, 0, RangeWindows(|s|)) == s
  {
    WindowsFill(s, 0, RangeWindows(|s|));
    WindowTail(s, RangeWindows(|s|));
    assert Prefix(s, RangeSize * 0) == [];
  }
}
