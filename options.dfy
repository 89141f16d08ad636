/**
 * The option loop at the start of Main: a restart scan over the argument list
 * that pulls out `-o <dir>` and `-ffmpeg <exe>` and leaves the URLs.
 */
module Options {
  import opened Wrappers

  const AVAILABLE_OPTIONS: seq<string> := ["o", "ffmpeg"]
  const DEFAULT_OUTPUT: string := "%USERPROFILE%/Downloads"
  const DEFAULT_FFMPEG: string := "ffmpeg.exe"

  datatype OptionError =
    | BadOption(name: string)        // "Bad option: <name>"
    | MissingValue(name: string)     // argl[i + 1] past the end of the list
    | DuplicateOption(name: string)  // Dictionary.Add of a key already present

  /** The arguments left over (the URLs) and the options found. */
  datatype Parsed = Parsed(rest: seq<string>, options: map<string, string>)

  /** argl[i].StartsWith('-') */
  predicate IsOption(arg: string) {
    |arg| > 0 && arg[0] == '-'
  }

  /** String.TrimStart('-'): all leading dashes removed. */
  function TrimDashes(s: string): (r: string)
    ensures |r| <= |s| && r == s[|s| - |r|..]
    ensures r == [] || r[0] != '-'
    ensures forall k :: 0 <= k < |s| - |r| ==> s[k] == '-'
  {
    if |s| > 0 && s[0] == '-' then TrimDashes(s[1..]) else s
  }

  /** `prefix` prepended to the arguments left over by a successful scan. */
  function Prepend(prefix: seq<string>, r: Result<Parsed, OptionError>): Result<Parsed, OptionError> {
    match r
    case Success(p) => Success(Parsed(prefix + p.rest, p.options))
    case Failure(e) => Failure(e)
  }

  /**
   * The options and leftover arguments as a single left-to-right pass finds them,
   * starting from the options already collected.
   */
  function Scan(args: seq<string>, options: map<string, string>): (r: Result<Parsed, OptionError>)
    ensures r.Success? ==> |r.value.rest| <= |args| && options.Keys <= r.value.options.Keys
    decreases |args|
  {
    if |args| == 0 then Success(Parsed([], options))
    else if !IsOption(args[0]) then Prepend([args[0]], Scan(args[1..], options))
    else
      var name := TrimDashes(args[0]);
      if name !in AVAILABLE_OPTIONS then Failure(BadOption(name))
      else if |args| < 2 then Failure(MissingValue(name))
      else if name in options then Failure(DuplicateOption(name))
      else Scan(args[2..], options[name := args[1]])
  }

  /** Arguments that are not options are passed over and kept in front. */
  lemma {:induction false} ScanSkipsPlain(prefix: seq<string>, suffix: seq<string>, options: map<string, string>)
    requires forall j :: 0 <= j < |prefix| ==> !IsOption(prefix[j])
    ensures Scan(prefix + suffix, options) == Prepend(prefix, Scan(suffix, options))
    decreases |prefix|
  {
    if prefix == [] {
      assert prefix + suffix == suffix;
      match Scan(suffix, options)
      case Success(p) => assert [] + p.rest == p.rest;
      case Failure(_) =>
    } else {
      var s := prefix + suffix;
      assert s[0] == prefix[0];
      assert s[1..] == prefix[1..] + suffix;
      ScanSkipsPlain(prefix[1..], suffix, options);
      match Scan(suffix, options)
      case Success(p) => assert [prefix[0]] + (prefix[1..] + p.rest) == prefix + p.rest;
      case Failure(_) =>
    }
  }

  /**
   * The restart scan of Program.cs: find the first argument starting with '-',
   * check its name, record it with the argument after it, remove both, and
   * scan again from the start until no argument starts with '-'.
   */
  method ConsumeOptions(args: seq<string>) returns (r: Result<Parsed, OptionError>)
    ensures r == Scan(args, map[])
  {
    var argl := args;
    var options: map<string, string> := map[];
    var lookForOptions := true;
    while lookForOptions
      invariant Scan(args, map[]) == Scan(argl, options)
      invariant !lookForOptions ==> forall j :: 0 <= j < |argl| ==> !IsOption(argl[j])
      decreases |argl|, lookForOptions
    {
      lookForOptions := false;
      var i := 0;
      while i < |argl|
        invariant 0 <= i <= |argl|
        invariant forall j :: 0 <= j < i ==> !IsOption(argl[j])
      {
        if IsOption(argl[i]) {
          ScanSkipsPlain(argl[..i], argl[i..], options);
          assert argl[..i] + argl[i..] == argl;
          var option := TrimDashes(argl[i]);
          if option !in AVAILABLE_OPTIONS {
            return Failure(BadOption(option));
          }
          if i + 1 >= |argl| {
            return Failure(MissingValue(option));
          }
          if option in options {
            return Failure(DuplicateOption(option));
          }
          var value := argl[i + 1];
          var remaining := argl[..i] + argl[i + 2..];
          assert argl[i..][2..] == argl[i + 2..];
          ScanSkipsPlain(argl[..i], argl[i + 2..], options[option := value]);
          options := options[option := value];
          argl := remaining;
          lookForOptions := true;
          break;
        }
        i := i + 1;
      }
    }
    r := Success(Parsed(argl, options));
    ScanSkipsPlain(argl, [], options);
    assert argl + [] == argl;
  }

  // ---------------------------------------------------------------- properties of the scan

  /** `a` is `b` with some elements left out, the rest in their original order. */
  predicate IsSubsequence(a: seq<string>, b: seq<string>)
    decreases |b|
  {
    if a == [] then true
    else if b == [] then false
    else (a[0] == b[0] && IsSubsequence(a[1..], b[1..])) || IsSubsequence(a, b[1..])
  }

  /**
   * On success no leftover argument starts with '-', the leftovers keep their
   * relative order, and every option added is an available name bound to an argument.
   */
  lemma {:induction false} ScanResult(args: seq<string>, options: map<string, string>)
    requires Scan(args, options).Success?
    ensures var p := Scan(args, options).value;
      && (forall j :: 0 <= j < |p.rest| ==> !IsOption(p.rest[j]))
      && IsSubsequence(p.rest, args)
      && options.Keys <= p.options.Keys
      && (forall k :: k in options ==> p.options[k] == options[k])
      && (forall k :: k in p.options && k !in options ==> k in AVAILABLE_OPTIONS && p.options[k] in args)
    decreases |args|
  {
    if |args| > 0 {
      var p := Scan(args, options).value;
      if !IsOption(args[0]) {
        ScanResult(args[1..], options);
        var q := Scan(args[1..], options).value;
        assert p.rest == [args[0]] + q.rest;
        assert p.rest[1..] == q.rest;
        forall k | k in p.options && k !in options
          ensures p.options[k] in args
        {
          assert p.options[k] in args[1..];
        }
      } else {
        var name := TrimDashes(args[0]);
        var options' := options[name := args[1]];
        ScanResult(args[2..], options');
        SubsequenceDrop(p.rest, args[1..]);
        assert args[1..][1..] == args[2..];
        SubsequenceDrop(p.rest, args);
        forall k | k in p.options && k !in options
          ensures k in AVAILABLE_OPTIONS && p.options[k] in args
        {
          if k != name {
            assert p.options[k] in args[2..];
          }
        }
      }
    }
  }

  lemma SubsequenceDrop(a: seq<string>, b: seq<string>)
    requires |b| > 0 && IsSubsequence(a, b[1..])
    ensures IsSubsequence(a, b)
  {
  }

  /** Without options nothing is taken out. */
  lemma {:induction false} NoOptionsKeepsAll(args: seq<string>, options: map<string, string>)
    requires forall j :: 0 <= j < |args| ==> !IsOption(args[j])
    ensures Scan(args, options) == Success(Parsed(args, options))
  {
    ScanSkipsPlain(args, [], options);
    assert args + [] == args;
  }

  /** A single option with its value is recorded and leaves no argument. */
  lemma SingleOptionOnly(flag: string, value: string)
    requires IsOption(flag) && TrimDashes(flag) in AVAILABLE_OPTIONS
    ensures Scan([flag, value], map[]) == Success(Parsed([], map[TrimDashes(flag) := value]))
  {
    var args := [flag, value];
    assert args[2..] == [];
  }

  /** An option in last position, with no value after it, fails. */
  lemma TrailingOptionFails(plain: seq<string>, last: string, options: map<string, string>)
    requires forall j :: 0 <= j < |plain| ==> !IsOption(plain[j])
    requires IsOption(last)
    ensures Scan(plain + [last], options).Failure?
    ensures TrimDashes(last) in AVAILABLE_OPTIONS ==> Scan(plain + [last], options) == Failure(MissingValue(TrimDashes(last)))
    ensures TrimDashes(last) !in AVAILABLE_OPTIONS ==> Scan(plain + [last], options) == Failure(BadOption(TrimDashes(last)))
  {
    ScanSkipsPlain(plain, [last], options);
  }

  /** An option already recorded, given again, fails. */
  lemma RepeatedOptionFails(plain: seq<string>, flag: string, value: string, more: seq<string>, options: map<string, string>)
    requires forall j :: 0 <= j < |plain| ==> !IsOption(plain[j])
    requires IsOption(flag) && TrimDashes(flag) in AVAILABLE_OPTIONS && TrimDashes(flag) in options
    ensures Scan(plain + [flag, value] + more, options) == Failure(DuplicateOption(TrimDashes(flag)))
  {
    assert plain + [flag, value] + more == plain + ([flag, value] + more);
    ScanSkipsPlain(plain, [flag, value] + more, options);
  }

  /** Two options with the same name, each with its value, fail on the second. */
  lemma SameOptionTwiceFails(flag: string, first: string, again: string, second: string)
    requires IsOption(flag) && IsOption(again)
    requires TrimDashes(flag) in AVAILABLE_OPTIONS && TrimDashes(again) == TrimDashes(flag)
    ensures Scan([flag, first, again, second], map[]) == Failure(DuplicateOption(TrimDashes(flag)))
  {
    var args := [flag, first, again, second];
    var empty: map<string, string> := map[];
    var m := empty[TrimDashes(flag) := first];
    assert args[2..] == [again, second];
    assert Scan(args, empty) == Scan([again, second], m);
    RepeatedOptionFails([], again, second, [], m);
    assert [] + [again, second] + [] == [again, second];
  }

  /** `-o <first> --o <second>` fails on the second `o`, whatever the two directories. */
  lemma RepeatedOutputOptionFails(first: string, second: string)
    ensures Scan(["-o", first, "--o", second], map[]) == Failure(DuplicateOption("o"))
  {
    OutputFlags();
    SameOptionTwiceFails("-o", first, "--o", second);
  }

  /** Both `-o` and `--o` name the `o` option. */
  lemma OutputFlags()
    ensures IsOption("-o") && IsOption("--o") && "o" in AVAILABLE_OPTIONS
    ensures TrimDashes("-o") == "o" && TrimDashes("--o") == "o"
  {
    assert "-o"[1..] == "o";
    assert "--o"[1..] == "-o";
  }

  // ---------------------------------------------------------------- defaults

  /** The output location: the `o` option, or %USERPROFILE%/Downloads. */
  function OutputLocation(options: map<string, string>): (r: string)
    ensures "o" in options ==> r == options["o"]
    ensures "o" !in options ==> r == DEFAULT_OUTPUT
  {
    if "o" in options then options["o"] else DEFAULT_OUTPUT
  }

  /** The muxer executable: the `ffmpeg` option, or ffmpeg.exe. */
  function FfmpegLocation(options: map<string, string>): (r: string)
    ensures "ffmpeg" in options ==> r == options["ffmpeg"]
    ensures "ffmpeg" !in options ==> r == DEFAULT_FFMPEG
  {
    if "ffmpeg" in options then options["ffmpeg"] else DEFAULT_FFMPEG
  }
}
