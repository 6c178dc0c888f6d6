/** What the script settles once, before its detection loop starts: which
    model file to load (camera.py lines 9-17) and the optional capture
    resolution written as "WxH" (lines 11, 33-36). */
module Startup {
  import opened Wrappers
  import opened Numerals

  /** The model identifier used when the configured file is missing. */
  const DEFAULT_MODEL: string := "yolov8s.pt"

  /** The two-way choice made at line 15. */
  datatype ModelChoice = Configured(path: string) | Fallback
  {
    function Path(): string
    {
      match this
      case Configured(p) => p
      case Fallback => DEFAULT_MODEL
    }
  }

  /** `os.path.exists` is the caller's view of the file system, given as `pathExists`. */
  function ChooseModel(configured: string, pathExists: string -> bool): (choice: ModelChoice)
    ensures choice.Configured? <==> pathExists(configured)
    ensures choice.Configured? ==> choice.path == configured
  {
    if pathExists(configured) then Configured(configured) else Fallback
  }

  /** The path handed to the model loader is an existing configured path, or
      the default identifier when (and only when) the configured one is missing. */
  lemma ModelPathFallback(configured: string, pathExists: string -> bool)
    ensures pathExists(configured) ==> ChooseModel(configured, pathExists).Path() == configured
    ensures !pathExists(configured) ==> ChooseModel(configured, pathExists).Path() == DEFAULT_MODEL
    ensures var p := ChooseModel(configured, pathExists).Path(); pathExists(p) || p == DEFAULT_MODEL
  {
  }

  /** How many times `c` occurs in `s`. */
  function Occurrences(s: string, c: char): nat
  {
    if s == [] then 0 else (if s[0] == c then 1 else 0) + Occurrences(s[1..], c)
  }

  /** Python's `s.split(sep)` with an explicit separator: one more part than
      there are separators; empty parts are kept. */
  function Split(s: string, sep: char): (parts: seq<string>)
    ensures |parts| == Occurrences(s, sep) + 1
  {
    if s == [] then [""]
    else if s[0] == sep then [""] + Split(s[1..], sep)
    else
      var rest := Split(s[1..], sep);
      [[s[0]] + rest[0]] + rest[1..]
  }

  /** The inverse of `Split`: the parts glued back with the separator. */
  function Join(parts: seq<string>, sep: char): string
  {
    if parts == [] then ""
    else if |parts| == 1 then parts[0]
    else parts[0] + [sep] + Join(parts[1..], sep)
  }

  lemma {:induction false} JoinSplit(s: string, sep: char)
    ensures Join(Split(s, sep), sep) == s
  {
    if s != [] {
      JoinSplit(s[1..], sep);
      var rest := Split(s[1..], sep);
      if s[0] == sep {
        assert ([""] + rest)[1..] == rest;
      } else {
        var parts := [[s[0]] + rest[0]] + rest[1..];
        assert parts[1..] == rest[1..];
        if |rest| > 1 {
          assert Join(rest, sep) == rest[0] + [sep] + Join(rest[1..], sep);
        }
      }
    }
  }

  lemma {:induction false} SplitPartsFree(s: string, sep: char)
    ensures forall k :: 0 <= k < |Split(s, sep)| ==> sep !in Split(s, sep)[k]
  {
    if s != [] {
      SplitPartsFree(s[1..], sep);
      var rest := Split(s[1..], sep);
      if s[0] != sep {
        var parts := Split(s, sep);
        assert parts[0] == [s[0]] + rest[0];
        forall k | 1 <= k < |parts| ensures sep !in parts[k] {
          assert parts[k] == rest[k];
        }
      }
    }
  }

  /** Splitting `a + [sep] + b` where `a` holds no separator yields `a`, then the parts of `b`. */
  lemma {:induction false} SplitAtFirst(a: string, sep: char, b: string)
    requires sep !in a
    ensures Split(a + [sep] + b, sep) == [a] + Split(b, sep)
  {
    if a == [] {
      assert a + [sep] + b == [sep] + b;
      assert ([sep] + b)[1..] == b;
    } else {
      var s := a + [sep] + b;
      assert s[0] == a[0] && s[1..] == a[1..] + [sep] + b;
      SplitAtFirst(a[1..], sep, b);
      assert [a[0]] + a[1..] == a;
    }
  }

  lemma {:induction false} SplitWithoutSep(s: string, sep: char)
    requires sep !in s
    ensures Split(s, sep) == [s]
  {
    if s != [] {
      SplitWithoutSep(s[1..], sep);
      assert [s[0]] + s[1..] == s;
    }
  }

  datatype Resolution = Resolution(width: int, height: int)

  /** The exceptions line 34 can raise. */
  datatype ResolutionError =
    | NotAnInteger(text: string)   // ValueError from int()
    | MissingHeight                // IndexError from split('x')[1]

  /** Line 34: `int(s.split('x')[0])` is evaluated before `s.split('x')[1]`
      is indexed, so a bad width is reported even when there is no 'x';
      parts after the second are ignored. */
  function ParseResolution(userRes: string): (r: Result<Resolution, ResolutionError>)
    ensures r.Success? ==> 'x' in userRes
    ensures r.Failure? && r.error.MissingHeight? ==> 'x' !in userRes && ParseInt(Split(userRes, 'x')[0]).Success?
  {
    var parts := Split(userRes, 'x');
    match ParseInt(parts[0])
    case Failure(text) => Failure(NotAnInteger(text))
    case Success(w) =>
      if |parts| < 2 then
        SplitWithFreeParts(userRes, 'x');
        Failure(MissingHeight)
      else
        match ParseInt(parts[1])
        case Failure(text) => Failure(NotAnInteger(text))
        case Success(h) =>
          SplitWithFreeParts(userRes, 'x');
          Success(Resolution(w, h))
  }

  /** A string contains the separator exactly when it splits into two or more parts. */
  lemma SplitWithFreeParts(s: string, sep: char)
    ensures sep in s <==> |Split(s, sep)| >= 2
  {
    JoinSplit(s, sep);
    SplitPartsFree(s, sep);
    var parts := Split(s, sep);
    if |parts| == 1 {
      assert s == parts[0];
    } else {
      assert s == parts[0] + [sep] + Join(parts[1..], sep);
      assert s[|parts[0]|] == sep;
    }
  }

  /** Lines 33-34: `if user_res:` treats both None and "" as "do not resize". */
  function TargetResolution(userRes: Option<string>): (r: Result<Option<Resolution>, ResolutionError>)
    ensures (userRes.None? || userRes.value == "") ==> r == Success(None)
    ensures userRes.Some? && userRes.value != "" ==>
      match ParseResolution(userRes.value)
      case Success(res) => r == Success(Some(res))
      case Failure(e) => r == Failure(e)
  {
    match userRes
    case None => Success(None)
    case Some(s) =>
      if s == "" then Success(None)
      else
        match ParseResolution(s)
        case Success(res) => Success(Some(res))
        case Failure(e) => Failure(e)
  }

  /** The text "WxH" for a resolution, as a user would write it. */
  function FormatResolution(res: Resolution): string
  {
    IntToString(res.width) + "x" + IntToString(res.height)
  }

  /** Round trip: every resolution written as "WxH" parses back to itself. */
  lemma ParseFormatResolution(res: Resolution)
    ensures ParseResolution(FormatResolution(res)) == Success(res)
  {
    var a, b := IntToString(res.width), IntToString(res.height);
    if 'x' in a { IntToStringChars(res.width, 'x'); }
    if 'x' in b { IntToStringChars(res.height, 'x'); }
    assert FormatResolution(res) == a + ['x'] + b;
    SplitAtFirst(a, 'x', b);
    SplitWithoutSep(b, 'x');
    ParseIntOfIntToString(res.width);
    ParseIntOfIntToString(res.height);
  }

  /** Reading a three-digit number without padding. */
  lemma ThreeDigits(s: string, n: nat)
    requires |s| == 3 && AllDigits(s)
    requires n == DigitValue(s[0]) * 100 + DigitValue(s[1]) * 10 + DigitValue(s[2])
    ensures ParseInt(s) == Success(n)
  {
    StripOfUnpadded(s);
    assert s[..2][..1] == [s[0]] && s[..1][..0] == [];
    assert DigitsValue(s[..1]) == DigitValue(s[0]);
    assert DigitsValue(s[..2]) == DigitValue(s[0]) * 10 + DigitValue(s[1]);
  }

  lemma NumberText640()
    ensures ParseInt("640") == Success(640)
  {
    ThreeDigits("640", 640);
  }

  lemma NumberText480()
    ensures ParseInt("480") == Success(480)
  {
    ThreeDigits("480", 480);
  }

  /** Line 34 reads the first two parts of the split and nothing else. */
  lemma ParseResolutionOfParts(s: string, w: int, h: int)
    requires |Split(s, 'x')| >= 2
    requires ParseInt(Split(s, 'x')[0]) == Success(w) && ParseInt(Split(s, 'x')[1]) == Success(h)
    ensures ParseResolution(s) == Success(Resolution(w, h))
  {
  }

  /** Two separator-free parts joined by one separator split back into those two parts. */
  lemma SplitTwoParts(a: string, sep: char, b: string)
    requires sep !in a && sep !in b
    ensures Split(a + [sep] + b, sep) == [a, b]
  {
    SplitAtFirst(a, sep, b);
    SplitWithoutSep(b, sep);
  }

  lemma SplitPlain()
    ensures Split("640x480", 'x') == ["640", "480"]
  {
    assert "640x480" == "640" + ['x'] + "480";
    SplitTwoParts("640", 'x', "480");
  }

  lemma SplitExtraPart()
    ensures Split("640x480x3", 'x') == ["640", "480", "3"]
  {
    assert "640x480x3" == "640" + ['x'] + "480x3";
    SplitAtFirst("640", 'x', "480x3");
    assert "480x3" == "480" + ['x'] + "3";
    SplitTwoParts("480", 'x', "3");
  }

  /** "640x480" reads as 640 by 480. */
  lemma ResolutionPlain()
    ensures ParseResolution("640x480") == Success(Resolution(640, 480))
  {
    SplitPlain();
    NumberText640();
    NumberText480();
    ParseResolutionOfParts("640x480", 640, 480);
  }

  /** Parts after the second one are ignored. */
  lemma ResolutionExtraPart()
    ensures ParseResolution("640x480x3") == Success(Resolution(640, 480))
  {
    SplitExtraPart();
    NumberText640();
    NumberText480();
    ParseResolutionOfParts("640x480x3", 640, 480);
  }

  /** A valid width with no 'x' fails on the missing second part. */
  lemma ResolutionNoSeparator()
    ensures ParseResolution("640") == Failure(MissingHeight)
  {
    SplitWithoutSep("640", 'x');
    NumberText640();
  }

  /** "640X480" is not a number: the fourth character is not a digit. */
  lemma NotANumberUpperCaseX()
    ensures ParseInt("640X480") == Failure("640X480")
  {
    ParseIntRejectsNonDigit("640X480", 3);
  }

  /** The separator is a lower-case 'x' only: "640X480" is one part, not a number. */
  lemma ResolutionUpperCaseX()
    ensures ParseResolution("640X480") == Failure(NotAnInteger("640X480"))
  {
    SplitWithoutSep("640X480", 'x');
    NotANumberUpperCaseX();
  }
}
