/** The argument vector handed to the download tool (yt-dlp). */
module Arguments {
  import opened Common
  import opened Format

  /** The spoofed Chrome 114 on Windows 10 user agent. */
  const UserAgent: string :=
    "Mozilla/5.0 (Windows NT 10.0; Win64; x64) AppleWebKit/537.36 (KHTML, like Gecko) Chrome/114.0.0.0 Safari/537.36"

  const Referer: string := "https://www.youtube.com/"

  /** Flags every invocation starts with: no playlist expansion, and the
      fixed user agent and referer. */
  const Prefix: seq<string> := ["--no-playlist", "--user-agent", UserAgent, "--referer", Referer]

  /** The audio-extraction flags the mp3 alias stands for. */
  const AudioFlags: seq<string> := ["-x", "--audio-format", "mp3"]

  /** `-o -`: write the download to standard output. */
  const ToStdout: seq<string> := ["-o", "-"]

  /** Everything the argument vector is built from. */
  datatype Invocation = Invocation(url: string, choice: Choice, cookieFile: Option<string>)

  function CookieFlags(cookieFile: Option<string>): seq<string>
  {
    if cookieFile.Some? then ["--cookies", cookieFile.value] else []
  }

  function FormatFlags(choice: Choice): seq<string>
  {
    match choice
    case Default => []
    case Audio => AudioFlags
    case Selector(f) => ["-f", f]
  }

  /** The vector in the order the handler pushes its parts. */
  function Render(inv: Invocation): seq<string>
  {
    Prefix + CookieFlags(inv.cookieFile) + FormatFlags(inv.choice) + ToStdout + [inv.url]
  }

  /** Reads the flags between the prefix and `-o -` back into the cookie
      file and format choice they encode. */
  function ParseFlags(middle: seq<string>): Option<(Option<string>, Choice)>
  {
    var cookieFile := if |middle| >= 2 && middle[0] == "--cookies" then Some(middle[1]) else None;
    var rest := if cookieFile.Some? then middle[2..] else middle;
    if rest == [] then Some((cookieFile, Default))
    else if rest == AudioFlags then Some((cookieFile, Audio))
    else if |rest| == 2 && rest[0] == "-f" then Some((cookieFile, Selector(rest[1])))
    else None
  }

  /** Reads an argument vector back into the invocation it describes, or
      `None` when it is not of the shape `Render` produces. */
  function Parse(argv: seq<string>): Option<Invocation>
  {
    if |argv| < |Prefix| + 3 || argv[..|Prefix|] != Prefix
       || argv[|argv| - 3..|argv| - 1] != ToStdout
    then None
    else
      var flags := ParseFlags(argv[|Prefix|..|argv| - 3]);
      if flags.None? then None
      else Some(Invocation(argv[|argv| - 1], flags.value.1, flags.value.0))
  }

  /** The flag section parses back to the cookie file and choice it encodes. */
  lemma ParseRenderFlags(cookieFile: Option<string>, choice: Choice)
    ensures ParseFlags(CookieFlags(cookieFile) + FormatFlags(choice)) == Some((cookieFile, choice))
  {
    var middle := CookieFlags(cookieFile) + FormatFlags(choice);
    if cookieFile.Some? {
      assert middle[2..] == FormatFlags(choice);
    } else {
      assert middle == FormatFlags(choice);
    }
  }

  /** A flag section that parses is exactly the encoding of what it parses to. */
  lemma RenderParseFlags(middle: seq<string>)
    requires ParseFlags(middle).Some?
    ensures CookieFlags(ParseFlags(middle).value.0) + FormatFlags(ParseFlags(middle).value.1) == middle
  {
    var (cookieFile, choice) := ParseFlags(middle).value;
    if cookieFile.Some? {
      assert middle == middle[..2] + middle[2..];
    } else {
      assert middle == [] + middle;
    }
  }

  /** Cuts a vector into prefix, flag section, `-o -` and last element. */
  lemma Sections(argv: seq<string>)
    requires |argv| >= |Prefix| + 3
    ensures argv == argv[..|Prefix|] + argv[|Prefix|..|argv| - 3] + argv[|argv| - 3..|argv| - 1] + [argv[|argv| - 1]]
  {
  }

  /** Every rendered vector parses back to its invocation: the url, the
      format selector and the cookie path each stay one element in their
      positions. */
  lemma ParseRender(inv: Invocation)
    ensures Parse(Render(inv)) == Some(inv)
  {
    var argv := Render(inv);
    var middle := CookieFlags(inv.cookieFile) + FormatFlags(inv.choice);
    assert argv == Prefix + middle + ToStdout + [inv.url];
    assert argv[..|Prefix|] == Prefix;
    assert argv[|argv| - 3..|argv| - 1] == ToStdout;
    assert argv[|Prefix|..|argv| - 3] == middle;
    ParseRenderFlags(inv.cookieFile, inv.choice);
  }

  /** Conversely, a vector that parses is exactly the rendering of what it
      parses to: `Parse` and `Render` are inverse bijections between
      invocations and well-formed vectors. */
  lemma RenderParse(argv: seq<string>)
    requires Parse(argv).Some?
    ensures Render(Parse(argv).value) == argv
  {
    var n := |argv|;
    var middle := argv[|Prefix|..n - 3];
    var flags := ParseFlags(middle).value;
    var inv := Invocation(argv[n - 1], flags.1, flags.0);
    assert Parse(argv) == Some(inv);
    RenderParseFlags(middle);
    var cookieFlags, formatFlags := CookieFlags(flags.0), FormatFlags(flags.1);
    assert cookieFlags + formatFlags == middle;
    assert Render(inv) == Prefix + cookieFlags + formatFlags + ToStdout + [argv[n - 1]];
    assert Prefix + cookieFlags + formatFlags == Prefix + middle;
    Sections(argv);
  }

  /** The argument vector for a request with `url`, the optional `format`
      and, when the cookie file was written, its path. */
  function BuildArgs(url: string, format: Option<string>, cookieFile: Option<string>): (argv: seq<string>)
    ensures |argv| >= |Prefix| + 3 && argv[..|Prefix|] == Prefix
    ensures argv[|argv| - 3..] == ["-o", "-", url]
    ensures cookieFile.Some? ==> argv[|Prefix|..|Prefix| + 2] == ["--cookies", cookieFile.value]
    ensures cookieFile.None? ==> argv[|Prefix|] != "--cookies"
    ensures var k := |Prefix| + (if cookieFile.Some? then 2 else 0);
            && (Truthy(format) && IsMp3Alias(format.value) ==>
                  argv[k..] == ["-x", "--audio-format", "mp3", "-o", "-", url] && "-f" !in argv[k..|argv| - 1])
            && (Truthy(format) && !IsMp3Alias(format.value) ==>
                  argv[k..] == ["-f", format.value, "-o", "-", url])
            && (!Truthy(format) ==> argv[k..] == ["-o", "-", url])
  {
    var argv := Render(Invocation(url, Classify(format), cookieFile));
    assert argv[|Prefix|..] == CookieFlags(cookieFile) + FormatFlags(Classify(format)) + ToStdout + [url];
    argv
  }

  /** Two requests get the same argument vector exactly when they agree on the
      url, on the cookie file and on what their formats ask for. */
  lemma BuildArgsInjective(url1: string, format1: Option<string>, cookie1: Option<string>,
                           url2: string, format2: Option<string>, cookie2: Option<string>)
    ensures BuildArgs(url1, format1, cookie1) == BuildArgs(url2, format2, cookie2) <==>
              url1 == url2 && cookie1 == cookie2 && Classify(format1) == Classify(format2)
  {
  }

  /* How the tool's option parser reads a vector. Options and operands may
     be interleaved; an element starting with `-` (other than `-` alone) is
     an option; the options below consume the next element as their value,
     whatever it looks like; `--` ends option processing. */

  /** An element the option parser reads as an option. */
  predicate IsOption(arg: string)
  {
    |arg| >= 2 && arg[0] == '-'
  }

  /** The options of this vector that take a separate value. */
  predicate TakesValue(arg: string)
  {
    arg in ["--user-agent", "--referer", "--cookies", "-f", "-o", "--audio-format"]
  }

  /** The operands (positional arguments) the option parser sees. */
  function Operands(argv: seq<string>): seq<string>
    decreases |argv|
  {
    if |argv| == 0 then []
    else if argv[0] == "--" then argv[1..]
    else if IsOption(argv[0]) then
      (if TakesValue(argv[0]) && |argv| >= 2 then Operands(argv[2..]) else Operands(argv[1..]))
    else [argv[0]] + Operands(argv[1..])
  }

  /** An option with its value is invisible to the operand scan. */
  lemma OperandsSkipValued(option: string, value: string, rest: seq<string>)
    requires IsOption(option) && TakesValue(option)
    ensures Operands([option, value] + rest) == Operands(rest)
  {
    assert ([option, value] + rest)[2..] == rest;
  }

  /** So is an option without a value. */
  lemma OperandsSkipSwitch(option: string, rest: seq<string>)
    requires IsOption(option) && !TakesValue(option) && option != "--"
    ensures Operands([option] + rest) == Operands(rest)
  {
    assert ([option] + rest)[1..] == rest;
  }

  /** A lone element is an operand exactly when it does not look like an option. */
  lemma OperandsSingle(arg: string)
    ensures Operands([arg]) == (if IsOption(arg) then [] else [arg])
  {
    assert [arg][1..] == [];
  }

  lemma OperandsSkipPrefix(rest: seq<string>)
    ensures Operands(Prefix + rest) == Operands(rest)
  {
    var afterUa := ["--referer", Referer] + rest;
    var afterSwitch := ["--user-agent", UserAgent] + afterUa;
    assert Prefix + rest == ["--no-playlist"] + afterSwitch;
    OperandsSkipSwitch("--no-playlist", afterSwitch);
    OperandsSkipValued("--user-agent", UserAgent, afterUa);
    OperandsSkipValued("--referer", Referer, rest);
  }

  lemma OperandsSkipCookie(cookieFile: Option<string>, rest: seq<string>)
    ensures Operands(CookieFlags(cookieFile) + rest) == Operands(rest)
  {
    if cookieFile.Some? {
      OperandsSkipValued("--cookies", cookieFile.value, rest);
    } else {
      assert CookieFlags(cookieFile) + rest == rest;
    }
  }

  lemma OperandsSkipFormat(choice: Choice, rest: seq<string>)
    ensures Operands(FormatFlags(choice) + rest) == Operands(rest)
  {
    match choice
    case Default =>
      assert FormatFlags(choice) + rest == rest;
    case Audio =>
      var afterX := ["--audio-format", "mp3"] + rest;
      assert FormatFlags(choice) + rest == ["-x"] + afterX;
      OperandsSkipSwitch("-x", afterX);
      OperandsSkipValued("--audio-format", "mp3", rest);
    case Selector(f) =>
      OperandsSkipValued("-f", f, rest);
  }

  /** The flags before `-o -` contribute no operand. */
  lemma OperandsSkipFlags(cookieFile: Option<string>, choice: Choice, rest: seq<string>)
    ensures Operands(Prefix + CookieFlags(cookieFile) + FormatFlags(choice) + rest) == Operands(rest)
  {
    var afterCookie := FormatFlags(choice) + rest;
    var afterPrefix := CookieFlags(cookieFile) + afterCookie;
    assert Prefix + CookieFlags(cookieFile) + FormatFlags(choice) + rest == Prefix + afterPrefix;
    OperandsSkipPrefix(afterPrefix);
    OperandsSkipCookie(cookieFile, afterCookie);
    OperandsSkipFormat(choice, rest);
  }

  /** As the route builds it, the vector's only operand is the url, unless
      the url itself looks like an option: then the tool reads it as one
      and sees no url at all. Nothing protects an option-shaped url. */
  lemma OptionUrlBecomesOption(url: string, format: Option<string>, cookieFile: Option<string>)
    ensures Operands(BuildArgs(url, format, cookieFile)) == (if IsOption(url) then [] else [url])
  {
    var flags := Prefix + CookieFlags(cookieFile) + FormatFlags(Classify(format));
    assert BuildArgs(url, format, cookieFile) == flags + (["-o", "-"] + [url]);
    OperandsSkipFlags(cookieFile, Classify(format), ["-o", "-"] + [url]);
    OperandsSkipValued("-o", "-", [url]);
    OperandsSingle(url);
  }

  /** The vector with `--` before the url, so that option processing ends
      there. */
  function BuildArgsGuarded(url: string, format: Option<string>, cookieFile: Option<string>): (argv: seq<string>)
    ensures var plain := BuildArgs(url, format, cookieFile);
            argv == plain[..|plain| - 1] + ["--", url]
  {
    Prefix + CookieFlags(cookieFile) + FormatFlags(Classify(format)) + ToStdout + ["--", url]
  }

  /** With the guard, the url is the one operand the tool sees, whatever
      it looks like. */
  lemma GuardedUrlIsOperand(url: string, format: Option<string>, cookieFile: Option<string>)
    ensures Operands(BuildArgsGuarded(url, format, cookieFile)) == [url]
  {
    var flags := Prefix + CookieFlags(cookieFile) + FormatFlags(Classify(format));
    assert BuildArgsGuarded(url, format, cookieFile) == flags + (["-o", "-"] + ["--", url]);
    OperandsSkipFlags(cookieFile, Classify(format), ["-o", "-"] + ["--", url]);
    OperandsSkipValued("-o", "-", ["--", url]);
    assert ["--", url][1..] == [url];
  }
}
