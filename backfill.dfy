/**
 * The frame backfill script (backend/backfill_frames.py): the JPEG frames already
 * extracted for a namespace, `frame_0017.jpg` and so on, are copied in sorted order
 * into the public frame directory under their bare index, `17.jpg`.
 * The destination directory is modelled by its `<index>.jpg` files, as a map from the
 * index to the name of the source frame last copied onto that file; `DestName` is
 * injective, so distinct indices are distinct files.
 */
module Backfill {
  import opened Wrappers
  import opened PyStr
  import opened LexOrder

  // ---------------------------------------------------------------------------
  // Which files are copied, in which order
  // ---------------------------------------------------------------------------

  /** The names in a directory listing that end in ".jpg", in listing order. */
  function Jpegs(names: seq<string>): (r: seq<string>)
    ensures forall f :: f in r <==> f in names && EndsWith(f, ".jpg")
  {
    if names == [] then []
    else (if EndsWith(names[0], ".jpg") then [names[0]] else []) + Jpegs(names[1..])
  }

  /** `sorted(f for f in os.listdir(frames_dir) if f.endswith(".jpg"))`. */
  function SelectFrames(names: seq<string>): (frames: seq<string>)
    ensures Sorted(frames)
    ensures multiset(frames) == multiset(Jpegs(names))
    ensures forall f :: f in frames <==> f in names && EndsWith(f, ".jpg")
  {
    var r := SortStrings(Jpegs(names));
    assert forall f :: f in r <==> f in multiset(Jpegs(names));
    r
  }

  // ---------------------------------------------------------------------------
  // From a frame file name to its index
  // ---------------------------------------------------------------------------

  /** The name with every "frame_" and then every ".jpg" removed. */
  function Remainder(name: string): string {
    RemoveAll(RemoveAll(name, "frame_"), ".jpg")
  }

  /**
   * `idx_str`: the remainder without its leading zeros, or "0" if nothing is left.
   * It is never empty, and it starts with a zero only when it is "0".
   */
  function IndexText(name: string): (t: string)
    ensures t != []
    ensures t[0] == '0' ==> t == "0"
  {
    var t := LStrip(Remainder(name), Zero);
    if t == [] then "0" else t
  }

  /** `int(idx_str)`, or the ValueError it raises, which quotes `idx_str`. */
  function FrameIndex(name: string): (r: Result<int, IntError>)
    ensures r.Err? ==> r.error == InvalidLiteral(IndexText(name))
  {
    ParseInt(IndexText(name))
  }

  /** The destination name `f"{idx}.jpg"`: it ends in ".jpg", and what precedes that reads back as the index. */
  function DestName(index: int): (n: string)
    ensures |n| >= 4 && n[|n| - 4..] == ".jpg"
    ensures ParseInt(n[..|n| - 4]) == Ok(index)
  {
    var n := IntToString(index) + ".jpg";
    assert n[..|n| - 4] == IntToString(index);
    ParseIntOfIntToString(index);
    n
  }

  /** Different indices land on different destination names. */
  lemma DestNameInjective(i: int, j: int)
    requires DestName(i) == DestName(j)
    ensures i == j
  {
    var n := DestName(i);
    assert ParseInt(n[..|n| - 4]) == Ok(i) && ParseInt(n[..|n| - 4]) == Ok(j);
  }

  lemma StripFramePrefix(rest: string)
    requires 'f' !in rest
    ensures RemoveAll("frame_" + rest + ".jpg", "frame_") == rest + ".jpg"
  {
    assert "frame_" + rest + ".jpg" == "frame_" + (rest + ".jpg");
    RemoveAllLeading("frame_", rest + ".jpg");
    assert 'f' !in rest + ".jpg";
    RemoveAllAbsent(rest + ".jpg", "frame_");
  }

  lemma StripJpgSuffix(rest: string)
    requires '.' !in rest
    ensures RemoveAll(rest + ".jpg", ".jpg") == rest
  {
    RemoveAllTrailing(rest, ".jpg");
  }

  /** What is left of `"frame_" + rest + ".jpg"` once both patterns are removed. */
  lemma RemovePatterns(rest: string)
    requires 'f' !in rest && '.' !in rest
    ensures Remainder("frame_" + rest + ".jpg") == rest
  {
    StripFramePrefix(rest);
    StripJpgSuffix(rest);
  }

  lemma DigitsHaveNoPatternStart(digits: string)
    requires AllDigits(digits)
    ensures 'f' !in digits && '.' !in digits
  {
    assert forall i :: 0 <= i < |digits| ==> IsDigit(digits[i]);
  }

  /** Dropping the leading zeros of a digit string keeps its digits and its value. */
  lemma LeadingZerosValue(digits: string)
    requires AllDigits(digits)
    ensures AllDigits(LStrip(digits, Zero))
    ensures DigitsValue(LStrip(digits, Zero)) == DigitsValue(digits)
  {
    var t := LStrip(digits, Zero);
    var zeros := digits[..|digits| - |t|];
    assert digits == zeros + t;
    DigitsValueLeadingZeros(zeros, t);
  }

  /** The `or "0"` fallback reads as 0. */
  lemma ParseIntZero()
    ensures ParseInt("0") == Ok(0)
  {
    ParseIntOfNatToString(0);
  }

  /** After the leading zeros are dropped, a digit string still has the same value. */
  lemma LeadingZerosDropped(digits: string)
    requires AllDigits(digits)
    ensures var t := LStrip(digits, Zero);
      ParseInt(if t == [] then "0" else t) == Ok(DigitsValue(digits) as int)
  {
    LeadingZerosValue(digits);
    var t := LStrip(digits, Zero);
    if t == [] {
      ParseIntZero();
    } else {
      ParseIntDigits(t);
    }
  }

  /** `frame_<digits>.jpg` gets the numeric value of its digits: leading zeros do not matter. */
  lemma FrameIndexOfDigits(digits: string)
    requires |digits| > 0 && AllDigits(digits)
    ensures FrameIndex("frame_" + digits + ".jpg") == Ok(DigitsValue(digits) as int)
  {
    DigitsHaveNoPatternStart(digits);
    RemovePatterns(digits);
    LeadingZerosDropped(digits);
  }

  /** An all-zero index, such as `frame_0000.jpg`, is 0 through the `or "0"` fallback. */
  lemma FrameIndexAllZeros(zeros: string)
    requires |zeros| > 0 && forall i :: 0 <= i < |zeros| ==> zeros[i] == '0'
    ensures IndexText("frame_" + zeros + ".jpg") == "0"
    ensures FrameIndex("frame_" + zeros + ".jpg") == Ok(0)
  {
    AllZerosValue(zeros);
    DigitsHaveNoPatternStart(zeros);
    RemovePatterns(zeros);
    LStripDroppedPrefix(zeros, [], Zero);
    assert zeros + [] == zeros;
    FrameIndexOfDigits(zeros);
  }

  lemma DigitsExample()
    ensures AllDigits("0017") && DigitsValue("0017") == 17
  {
    assert "0017"[..3] == "001" && "001"[..2] == "00" && "00"[..1] == "0" && "0"[..0] == "";
  }

  /** The script's own example: `frame_0017.jpg` is index 17 ... */
  lemma FrameIndexExample()
    ensures FrameIndex("frame_" + "0017" + ".jpg") == Ok(17)
  {
    DigitsExample();
    FrameIndexOfDigits("0017");
  }

  /** ... and is copied to `17.jpg`. */
  lemma DestNameExample()
    ensures DestName(17) == "17" + ".jpg"
  {
    DecimalSeventeen();
  }

  lemma DecimalSeventeen()
    ensures IntToString(17) == "17"
  {
    assert NatToString(17) == NatToString(1) + [DigitChar(7)];
  }

  /** A character that is not a zero survives dropping the leading zeros, and `int()` rejects it. */
  lemma StrippedZerosRejected(rest: string, k: nat)
    requires k < |rest| && !IsIntSpace(rest[k]) && !IsDigit(rest[k]) && rest[k] !in "+-_"
    ensures LStrip(rest, Zero) != []
    ensures ParseInt(LStrip(rest, Zero)).Err?
  {
    var t := LStrip(rest, Zero);
    var d := |rest| - |t|;
    assert !In(rest[k], Zero);
    assert k >= d;
    assert t[k - d] == rest[k];
    ParseIntRejects(t, k - d);
  }

  /**
   * A name whose remainder holds a character `int()` never accepts makes the index
   * parse fail, as `frame_1.5.jpg` and `frame_final.jpg` do.
   */
  lemma FrameIndexRejects(name: string, k: nat)
    requires k < |Remainder(name)|
    requires var c := Remainder(name)[k]; !IsIntSpace(c) && !IsDigit(c) && c !in "+-_"
    ensures FrameIndex(name).Err?
  {
    StrippedZerosRejected(Remainder(name), k);
  }

  // ---------------------------------------------------------------------------
  // The copy loop
  // ---------------------------------------------------------------------------

  /** The destination directory after a run of copies, and the frame whose index failed to parse, if one did. */
  datatype CopyRun = CopyRun(files: map<int, string>, failed: Option<string>)

  /**
   * Copying `frames` in order onto `dest`: each frame overwrites the file of its index;
   * the first name whose index does not parse raises, and the copies made before it
   * remain. It is stated for any index function `parse`; the script's own is `FrameIndex`.
   */
  function CopyFrames(dest: map<int, string>, frames: seq<string>, parse: string -> Result<int, IntError>): (r: CopyRun)
    ensures dest.Keys <= r.files.Keys
    ensures r.failed.Some? ==> r.failed.value in frames && parse(r.failed.value).Err?
    decreases |frames|
  {
    if frames == [] then CopyRun(dest, None)
    else match parse(frames[0])
      case Err(_) => CopyRun(dest, Some(frames[0]))
      case Ok(index) => CopyFrames(dest[index := frames[0]], frames[1..], parse)
  }

  predicate AllParse(frames: seq<string>, parse: string -> Result<int, IntError>) {
    forall j :: 0 <= j < |frames| ==> parse(frames[j]).Ok?
  }

  /** Later writes win: a frame's copy survives unless a later frame has the same index. */
  lemma {:induction false} CopyFramesLastWins(
    dest: map<int, string>, frames: seq<string>, parse: string -> Result<int, IntError>, j: nat)
    requires AllParse(frames, parse) && j < |frames|
    requires forall k :: j < k < |frames| ==> parse(frames[k]) != parse(frames[j])
    ensures CopyFrames(dest, frames, parse).failed == None
    ensures parse(frames[j]).value in CopyFrames(dest, frames, parse).files
    ensures CopyFrames(dest, frames, parse).files[parse(frames[j]).value] == frames[j]
    decreases |frames|
  {
    var next := dest[parse(frames[0]).value := frames[0]];
    assert CopyFrames(dest, frames, parse) == CopyFrames(next, frames[1..], parse);
    if j == 0 {
      CopyFramesKeepsOthers(next, frames[1..], parse, parse(frames[0]).value);
    } else {
      CopyFramesLastWins(next, frames[1..], parse, j - 1);
    }
  }

  /** An index no frame has keeps its file; every copy succeeds when every index parses. */
  lemma {:induction false} CopyFramesKeepsOthers(
    dest: map<int, string>, frames: seq<string>, parse: string -> Result<int, IntError>, index: int)
    requires AllParse(frames, parse)
    requires forall k :: 0 <= k < |frames| ==> parse(frames[k]) != Ok(index)
    ensures CopyFrames(dest, frames, parse).failed == None
    ensures index in CopyFrames(dest, frames, parse).files <==> index in dest
    ensures index in dest ==> CopyFrames(dest, frames, parse).files[index] == dest[index]
    decreases |frames|
  {
    if frames != [] {
      var next := dest[parse(frames[0]).value := frames[0]];
      assert CopyFrames(dest, frames, parse) == CopyFrames(next, frames[1..], parse);
      CopyFramesKeepsOthers(next, frames[1..], parse, index);
    }
  }

  /** The files after a run with no failure: the old ones plus one per frame index. */
  lemma {:induction false} CopyFramesNames(
    dest: map<int, string>, frames: seq<string>, parse: string -> Result<int, IntError>)
    requires AllParse(frames, parse)
    ensures CopyFrames(dest, frames, parse).failed == None
    ensures CopyFrames(dest, frames, parse).files.Keys
         == dest.Keys + set j | 0 <= j < |frames| :: parse(frames[j]).value
    decreases |frames|
  {
    if frames != [] {
      var next := dest[parse(frames[0]).value := frames[0]];
      CopyFramesNames(next, frames[1..], parse);
      var rest := set j | 0 <= j < |frames[1..]| :: parse(frames[1..][j]).value;
      var all := set j | 0 <= j < |frames| :: parse(frames[j]).value;
      assert all == {parse(frames[0]).value} + rest by {
        forall n | n in all ensures n in {parse(frames[0]).value} + rest {
          var j :| 0 <= j < |frames| && n == parse(frames[j]).value;
          if j > 0 { assert n == parse(frames[1..][j - 1]).value; }
        }
        forall n | n in rest ensures n in all {
          var j :| 0 <= j < |frames[1..]| && n == parse(frames[1..][j]).value;
          assert n == parse(frames[j + 1]).value;
        }
      }
    }
  }

  /** A run stops at the first frame whose index does not parse, keeping the copies made before it. */
  lemma {:induction false} CopyFramesStops(
    dest: map<int, string>, frames: seq<string>, parse: string -> Result<int, IntError>, j: nat)
    requires j < |frames| && AllParse(frames[..j], parse) && parse(frames[j]).Err?
    ensures CopyFrames(dest, frames, parse).failed == Some(frames[j])
    ensures CopyFrames(dest, frames, parse).files == CopyFrames(dest, frames[..j], parse).files
    decreases |frames|
  {
    if j > 0 {
      assert frames[..j][0] == frames[0];
      var next := dest[parse(frames[0]).value := frames[0]];
      assert frames[1..][..j - 1] == frames[..j][1..];
      assert AllParse(frames[1..][..j - 1], parse) by {
        forall k | 0 <= k < j - 1 ensures parse(frames[..j][1..][k]).Ok? {
          assert frames[..j][1..][k] == frames[..j][k + 1];
        }
      }
      CopyFramesStops(next, frames[1..], parse, j - 1);
      assert CopyFrames(dest, frames[..j], parse) == CopyFrames(next, frames[..j][1..], parse);
    }
  }

  /** A run completes exactly when every index parses. */
  lemma {:induction false} CopyFramesCompletes(
    dest: map<int, string>, frames: seq<string>, parse: string -> Result<int, IntError>)
    ensures CopyFrames(dest, frames, parse).failed == None <==> AllParse(frames, parse)
    decreases |frames|
  {
    if frames != [] && parse(frames[0]).Ok? {
      var next := dest[parse(frames[0]).value := frames[0]];
      CopyFramesCompletes(next, frames[1..], parse);
      assert AllParse(frames, parse) <==> AllParse(frames[1..], parse) by {
        if AllParse(frames[1..], parse) {
          forall j | 0 <= j < |frames| ensures parse(frames[j]).Ok? {
            if j > 0 { assert frames[j] == frames[1..][j - 1]; }
          }
        }
        if AllParse(frames, parse) {
          forall j | 0 <= j < |frames[1..]| ensures parse(frames[1..][j]).Ok? {
            assert frames[1..][j] == frames[j + 1];
          }
        }
      }
    }
  }

  /** The `for` loop over the frames, copying each one in turn. */
  method CopyLoop(dest: map<int, string>, frames: seq<string>, parse: string -> Result<int, IntError>)
    returns (files: map<int, string>, failed: Option<string>)
    ensures CopyRun(files, failed) == CopyFrames(dest, frames, parse)
  {
    files := dest;
    var i := 0;
    while i < |frames|
      invariant 0 <= i <= |frames|
      invariant AllParse(frames[..i], parse)
      invariant CopyFrames(dest, frames, parse) == CopyFrames(files, frames[i..], parse)
    {
      assert frames[i..][0] == frames[i] && frames[i..][1..] == frames[i + 1..];
      var index := parse(frames[i]);
      if index.Err? {
        CopyFramesStops(dest, frames, parse, i);
        return files, Some(frames[i]);
      }
      files := files[index.value := frames[i]];
      assert frames[..i + 1] == frames[..i] + [frames[i]];
      i := i + 1;
    }
    return files, None;
  }

  /** How a run of the script ends: the three early returns or messages, or the exception. */
  datatype Outcome =
    | MissingDirectory
    | NoFrames
    | Completed(count: nat)
    | Crashed(frame: string)

  /**
   * `backfill(namespace, frames_dir)`: `listing` is what `os.listdir(frames_dir)` returns and
   * `dest` the `<index>.jpg` files of the destination directory before the run.
   */
  method RunBackfill(dirExists: bool, listing: seq<string>, dest: map<int, string>)
    returns (outcome: Outcome, files: map<int, string>)
    ensures !dirExists ==> outcome == MissingDirectory && files == dest
    ensures dirExists && SelectFrames(listing) == [] ==> outcome == NoFrames && files == dest
    ensures dirExists && SelectFrames(listing) != [] ==> files == CopyFrames(dest, SelectFrames(listing), FrameIndex).files
    ensures outcome.Completed? <==> dirExists && SelectFrames(listing) != [] && AllParse(SelectFrames(listing), FrameIndex)
    ensures outcome.Completed? ==> outcome.count == |SelectFrames(listing)|
    ensures dirExists && SelectFrames(listing) != [] && !AllParse(SelectFrames(listing), FrameIndex) ==>
      outcome.Crashed?
    ensures outcome.Crashed? ==> CopyFrames(dest, SelectFrames(listing), FrameIndex).failed == Some(outcome.frame)
  {
    files := dest;
    if !dirExists {
      return MissingDirectory, files;
    }
    var frames := SelectFrames(listing);
    if frames == [] {
      return NoFrames, files;
    }
    var failed;
    files, failed := CopyLoop(dest, frames, FrameIndex);
    CopyFramesCompletes(dest, frames, FrameIndex);
    if failed.Some? {
      return Crashed(failed.value), files;
    }
    return Completed(|frames|), files;
  }
}
