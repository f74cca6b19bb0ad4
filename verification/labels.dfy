/** The pure pieces of saving a label: the output file name derived from the
    image path, and the binarisation of the resized mask. */
module Labels {

  // ---------------------------------------------------------------------------
  // File name
  // ---------------------------------------------------------------------------

  /** Python's `str.split(sep)`: the pieces between occurrences of `sep`, in
      order, including empty ones; a string without `sep` is one piece. */
  function Split(s: string, sep: char): (parts: seq<string>)
    ensures |parts| >= 1
    ensures forall i :: 0 <= i < |parts| ==> sep !in parts[i]
  {
    if |s| == 0 then [""]
    else
      var rest := Split(s[1..], sep);
      if s[0] == sep then [""] + rest
      else [[s[0]] + rest[0]] + rest[1..]
  }

  /** The pieces put back together with `sep` between neighbours. */
  function Join(parts: seq<string>, sep: char): string
    requires |parts| >= 1
  {
    if |parts| == 1 then parts[0] else parts[0] + [sep] + Join(parts[1..], sep)
  }

  lemma {:induction false} JoinExtendFirst(c: char, parts: seq<string>, sep: char)
    requires |parts| >= 1
    ensures Join([[c] + parts[0]] + parts[1..], sep) == [c] + Join(parts, sep)
  {
    var ext := [[c] + parts[0]] + parts[1..];
    assert ext[1..] == parts[1..];
  }

  /** Splitting loses nothing: joining the pieces gives the string back. */
  lemma {:induction false} JoinSplit(s: string, sep: char)
    ensures Join(Split(s, sep), sep) == s
  {
    if |s| > 0 {
      var rest := Split(s[1..], sep);
      JoinSplit(s[1..], sep);
      if s[0] == sep {
        assert ([""] + rest)[1..] == rest;
        assert s == [sep] + s[1..];
      } else {
        JoinExtendFirst(s[0], rest, sep);
        assert s == [s[0]] + s[1..];
      }
    }
  }

  /** Joining separator-free pieces and splitting again gives the pieces back. */
  lemma {:induction false} SplitJoin(parts: seq<string>, sep: char)
    requires |parts| >= 1
    requires forall i :: 0 <= i < |parts| ==> sep !in parts[i]
    ensures Split(Join(parts, sep), sep) == parts
    decreases |parts|, |parts[0]|
  {
    var s := Join(parts, sep);
    if |parts[0]| == 0 {
      if |parts| > 1 {
        var tail := parts[1..];
        assert s == [sep] + Join(tail, sep);
        assert s[1..] == Join(tail, sep);
        SplitJoin(tail, sep);
        assert parts == [""] + tail;
      }
    } else {
      var c := parts[0][0];
      var shorter := [parts[0][1..]] + parts[1..];
      assert shorter[1..] == parts[1..];
      assert forall i :: 0 <= i < |shorter| ==> sep !in shorter[i] by {
        forall i | 0 <= i < |shorter| ensures sep !in shorter[i] {
          if i == 0 {
            assert sep !in parts[0];
          } else {
            assert shorter[i] == parts[i];
          }
        }
      }
      JoinExtendFirst(c, shorter, sep);
      assert [[c] + shorter[0]] + shorter[1..] == parts by {
        assert [c] + parts[0][1..] == parts[0];
      }
      assert s == [c] + Join(shorter, sep);
      assert s[1..] == Join(shorter, sep);
      SplitJoin(shorter, sep);
      assert c != sep by { assert parts[0][0] in parts[0]; }
    }
  }

  /** The first piece is the part of `s` before its first `sep`, or all of `s`
      when there is none. */
  lemma {:induction false} FirstPiece(s: string, sep: char)
    ensures var p := Split(s, sep)[0];
      && p <= s
      && (|p| == |s| || s[|p|] == sep)
  {
    if |s| > 0 && s[0] != sep {
      FirstPiece(s[1..], sep);
    }
  }

  const LabelSuffix: string := "_label.png"

  /** `save_contour`'s file name: the image path up to its first `.`, then
      `_label.png`. The stem is dot-free, a prefix of the path, and ends where
      the path ends or at its first dot. */
  function LabelFilename(path: string): (name: string)
    ensures |name| >= |LabelSuffix| && name[|name| - |LabelSuffix|..] == LabelSuffix
    ensures var stem := name[..|name| - |LabelSuffix|];
      && '.' !in stem
      && stem <= path
      && (|stem| == |path| || path[|stem|] == '.')
  {
    var stem := Split(path, '.')[0];
    FirstPiece(path, '.');
    assert (stem + LabelSuffix)[..|stem|] == stem;
    stem + LabelSuffix
  }

  // ---------------------------------------------------------------------------
  // Binarisation
  // ---------------------------------------------------------------------------

  /** An 8-bit single-channel pixel value. */
  type Byte = x: int | 0 <= x < 256

  /** A single-channel raster, row by row. */
  type Raster = seq<seq<Byte>>

  const ThresholdValue: Byte := 127
  const MaxValue: Byte := 255

  predicate IsBinaryPixel(v: Byte) {
    v == 0 || v == MaxValue
  }

  /** Binary thresholding of one pixel: strictly above the threshold becomes
      full intensity, anything else zero. */
  function ThresholdPixel(v: Byte): (r: Byte)
    ensures IsBinaryPixel(r)
    ensures r == MaxValue <==> v > ThresholdValue
  {
    if v > ThresholdValue then MaxValue else 0
  }

  predicate SameShape(a: Raster, b: Raster) {
    |a| == |b| && forall i :: 0 <= i < |a| ==> |a[i]| == |b[i]|
  }

  predicate IsBinary(img: Raster) {
    forall i, j :: 0 <= i < |img| && 0 <= j < |img[i]| ==> IsBinaryPixel(img[i][j])
  }

  function ThresholdRow(row: seq<Byte>): (r: seq<Byte>)
    ensures |r| == |row|
    ensures forall j :: 0 <= j < |r| ==> (r[j] == MaxValue <==> row[j] > ThresholdValue)
    ensures forall j :: 0 <= j < |r| ==> IsBinaryPixel(r[j])
  {
    seq(|row|, j requires 0 <= j < |row| => ThresholdPixel(row[j]))
  }

  /** Binarisation of a whole raster: same shape, every pixel 0 or 255, and
      255 exactly where the input was above the threshold. */
  function Threshold(img: Raster): (out: Raster)
    ensures SameShape(img, out)
    ensures IsBinary(out)
    ensures forall i, j :: 0 <= i < |out| && 0 <= j < |out[i]| ==>
      (out[i][j] == MaxValue <==> img[i][j] > ThresholdValue)
  {
    seq(|img|, i requires 0 <= i < |img| => ThresholdRow(img[i]))
  }

  /** Binary rasters are exactly the ones thresholding leaves alone. */
  lemma ThresholdFixesExactlyBinary(img: Raster)
    ensures Threshold(img) == img <==> IsBinary(img)
  {
    var out := Threshold(img);
    if IsBinary(img) {
      forall i | 0 <= i < |img|
        ensures out[i] == img[i]
      {
        forall j | 0 <= j < |img[i]|
          ensures out[i][j] == img[i][j]
        {
          assert IsBinaryPixel(img[i][j]);
        }
      }
    }
  }

  /** Thresholding twice is thresholding once. */
  lemma ThresholdIdempotent(img: Raster)
    ensures Threshold(Threshold(img)) == Threshold(img)
  {
    ThresholdFixesExactlyBinary(Threshold(img));
  }
}
