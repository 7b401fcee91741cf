/**
 * Command-line parsing of the standalone server (backend/full_server.py,
 * parse_args): `--port N`, `--db PATH` and `--static DIR`, each taking the
 * next token; any other token, and a flag with nothing after it, is skipped.
 */
module ServerArgs {
  import opened Common

  datatype Config = Config(port: int, dbPath: string, staticDir: string)

  const DefaultConfig := Config(8080, "/home/raven/lms-edge/backend/data/lms.db", "/home/raven/lms-edge/backend/static")

  /** Parsing fails only when `int()` rejects the value given to `--port`. */
  datatype ParseResult = Parsed(config: Config) | BadPort(token: string)

  // ---------------------------------------------------------------------------
  // Python's int() on a decimal text
  // ---------------------------------------------------------------------------

  predicate IsDigit(c: char) { '0' <= c <= '9' }

  /**
   * The ASCII characters `int()` strips as white space: tab to carriage
   * return, and space. The separators 0x1C to 0x1F, white space to
   * `str.strip()`, are not among them.
   */
  predicate IsSpace(c: char) {
    (9 <= c as int <= 13) || c == ' '
  }

  function StripLeft(s: string): (r: string)
    ensures |r| <= |s|
    ensures r != [] ==> !IsSpace(r[0])
    decreases |s|
  {
    if s != [] && IsSpace(s[0]) then StripLeft(s[1..]) else s
  }

  function StripRight(s: string): (r: string)
    ensures |r| <= |s|
    ensures r != [] ==> !IsSpace(r[|r| - 1])
    decreases |s|
  {
    if s != [] && IsSpace(s[|s| - 1]) then StripRight(s[..|s| - 1]) else s
  }

  /**
   * A decimal digit string as `int()` accepts it: digits, with single
   * underscores allowed between two digits.
   */
  predicate WellFormedDigits(s: string) {
    && s != []
    && IsDigit(s[0]) && IsDigit(s[|s| - 1])
    && (forall k :: 0 <= k < |s| ==> IsDigit(s[k]) || s[k] == '_')
    && (forall k :: 0 <= k < |s| - 1 && s[k] == '_' ==> IsDigit(s[k + 1]))
  }

  /** The value of a digit string, underscores ignored. */
  function DigitsValue(s: string): nat
    decreases |s|
  {
    if s == [] then 0
    else if IsDigit(s[|s| - 1]) then DigitsValue(s[..|s| - 1]) * 10 + (s[|s| - 1] as int - '0' as int)
    else DigitsValue(s[..|s| - 1])
  }

  /** The text with `int()`'s white space removed at both ends. */
  function Trim(s: string): string {
    StripRight(StripLeft(s))
  }

  /** The text after an optional leading sign. */
  function Unsigned(t: string): string {
    if t != [] && (t[0] == '-' || t[0] == '+') then t[1..] else t
  }

  /** The default cap of Python's conversion of text to `int` on the number of digits. */
  const MaxStrDigits := 4300

  /** The number of digits in a text; underscores do not count. */
  function DigitCount(s: string): nat {
    if s == [] then 0 else (if IsDigit(s[0]) then 1 else 0) + DigitCount(s[1..])
  }

  /** `int(s)`: `None` where Python raises `ValueError`. */
  function ParseInt(s: string): Option<int> {
    var t := Trim(s);
    var body := Unsigned(t);
    if !WellFormedDigits(body) || DigitCount(body) > MaxStrDigits then None
    else if t[0] == '-' then Some(0 - DigitsValue(body))
    else Some(DigitsValue(body))
  }

  lemma {:induction false} DigitsValueOfNatToString(n: nat)
    ensures DigitsValue(NatToString(n)) == n
    decreases n
  {
    var s := NatToString(n);
    if n >= 10 {
      DigitsValueOfNatToString(n / 10);
      assert s[..|s| - 1] == NatToString(n / 10);
    }
  }

  predicate AllDigits(s: string) {
    s != [] && forall k :: 0 <= k < |s| ==> IsDigit(s[k])
  }

  lemma AllDigitsWellFormed(s: string)
    requires AllDigits(s)
    ensures WellFormedDigits(s)
  {
  }

  /** In a text of digits only, every character counts toward the cap. */
  lemma {:induction false} DigitCountOfDigits(s: string)
    requires forall k :: 0 <= k < |s| ==> IsDigit(s[k])
    ensures DigitCount(s) == |s|
    decreases |s|
  {
    if s != [] {
      DigitCountOfDigits(s[1..]);
    }
  }

  lemma StripLeftStops(s: string)
    requires s != [] && !IsSpace(s[0])
    ensures StripLeft(s) == s
  {
  }

  lemma StripRightStops(s: string)
    requires s != [] && !IsSpace(s[|s| - 1])
    ensures StripRight(s) == s
  {
  }

  /** A text that trims to a sign followed by at most 4300 digits is read as the signed value. */
  lemma ParseSignedDigits(s: string, sign: char, d: string)
    requires sign == '+' || sign == '-'
    requires AllDigits(d) && |d| <= MaxStrDigits && Trim(s) == [sign] + d
    ensures ParseInt(s) == Some(if sign == '-' then 0 - DigitsValue(d) else DigitsValue(d))
  {
    var t := [sign] + d;
    assert t[1..] == d;
    assert Unsigned(t) == d;
    AllDigitsWellFormed(d);
    DigitCountOfDigits(d);
  }

  /** A plain run of at most 4300 ASCII digits is read as its decimal value. */
  lemma ParseIntOfDigits(s: string)
    requires AllDigits(s) && |s| <= MaxStrDigits
    ensures ParseInt(s) == Some(DigitsValue(s))
  {
    StripLeftStops(s);
    StripRightStops(s);
    assert Unsigned(s) == s;
    AllDigitsWellFormed(s);
    DigitCountOfDigits(s);
  }

  /** More than 4300 digits are refused, whatever their value. */
  lemma ParseIntTooManyDigits(s: string)
    requires AllDigits(s) && |s| > MaxStrDigits
    ensures ParseInt(s) == None
  {
    StripLeftStops(s);
    StripRightStops(s);
    assert Unsigned(s) == s;
    DigitCountOfDigits(s);
  }

  /** `int()` reads back the decimal text of every natural number of at most 4300 digits. */
  lemma ParseIntOfNatToString(n: nat)
    requires |NatToString(n)| <= MaxStrDigits
    ensures ParseInt(NatToString(n)) == Some(n)
  {
    ParseIntOfDigits(NatToString(n));
    DigitsValueOfNatToString(n);
  }

  lemma NegativeDigits(s: string)
    requires AllDigits(s) && |s| <= MaxStrDigits
    ensures ParseInt("-" + s) == Some(0 - DigitsValue(s))
  {
    var neg := "-" + s;
    StripLeftStops(neg);
    assert neg[|neg| - 1] == s[|s| - 1];
    StripRightStops(neg);
    ParseSignedDigits(neg, '-', s);
  }

  /** A leading '-' negates the value read. */
  lemma ParseIntNegative(n: nat)
    requires |NatToString(n)| <= MaxStrDigits
    ensures ParseInt("-" + NatToString(n)) == Some(0 - n)
  {
    NegativeDigits(NatToString(n));
    DigitsValueOfNatToString(n);
  }

  predicate AllSpace(s: string) {
    forall k :: 0 <= k < |s| ==> IsSpace(s[k])
  }

  lemma {:induction false} StripLeftSpaces(l: string, x: string)
    requires AllSpace(l)
    ensures StripLeft(l + x) == StripLeft(x)
    decreases |l|
  {
    if l == [] {
      assert l + x == x;
    } else {
      assert (l + x)[0] == l[0];
      assert (l + x)[1..] == l[1..] + x;
      StripLeftSpaces(l[1..], x);
    }
  }

  lemma {:induction false} StripRightSpaces(x: string, r: string)
    requires AllSpace(r)
    ensures StripRight(x + r) == StripRight(x)
    decreases |r|
  {
    if r == [] {
      assert x + r == x;
    } else {
      var y := x + r;
      assert y[|y| - 1] == r[|r| - 1];
      assert y[..|y| - 1] == x + r[..|r| - 1];
      StripRightSpaces(x, r[..|r| - 1]);
    }
  }

  /** Trailing white space does not change what remains after stripping both ends. */
  lemma {:induction false} TrimIgnoresTrailingSpaces(x: string, r: string)
    requires AllSpace(r)
    ensures Trim(x + r) == Trim(x)
    decreases |x|
  {
    if x == [] {
      assert x + r == r + [];
      StripLeftSpaces(r, []);
    } else if IsSpace(x[0]) {
      assert (x + r)[0] == x[0];
      assert (x + r)[1..] == x[1..] + r;
      TrimIgnoresTrailingSpaces(x[1..], r);
    } else {
      assert (x + r)[0] == x[0];
      StripLeftStops(x + r);
      StripLeftStops(x);
      StripRightSpaces(x, r);
    }
  }

  /** White space of any length around the text does not change what `int()` reads. */
  lemma ParseIntPadded(l: string, s: string, r: string)
    requires AllSpace(l) && AllSpace(r)
    ensures ParseInt(l + s + r) == ParseInt(s)
  {
    assert l + s + r == l + (s + r);
    StripLeftSpaces(l, s + r);
    TrimIgnoresTrailingSpaces(s, r);
    assert Trim(l + s + r) == Trim(s);
  }

  /** A '+' before an unsigned text without surrounding white space changes nothing. */
  lemma ParseIntPlus(s: string)
    requires s != [] && s[0] != '+' && s[0] != '-' && !IsSpace(s[0]) && !IsSpace(s[|s| - 1])
    ensures ParseInt("+" + s) == ParseInt(s)
  {
    var t := "+" + s;
    StripLeftStops(t);
    assert t[|t| - 1] == s[|s| - 1];
    StripRightStops(t);
    StripLeftStops(s);
    StripRightStops(s);
    assert t[1..] == s;
  }

  /** Stripping the right end keeps a first character that is not white space. */
  lemma {:induction false} StripRightKeepsFirst(s: string)
    requires s != [] && !IsSpace(s[0])
    ensures StripRight(s) != [] && StripRight(s)[0] == s[0]
    decreases |s|
  {
    if IsSpace(s[|s| - 1]) {
      StripRightKeepsFirst(s[..|s| - 1]);
    }
  }

  /** Stripping the left end keeps a last character that is not white space. */
  lemma {:induction false} StripLeftKeepsLast(s: string)
    requires s != [] && !IsSpace(s[|s| - 1])
    ensures StripLeft(s) != [] && StripLeft(s)[|StripLeft(s)| - 1] == s[|s| - 1]
    decreases |s|
  {
    if IsSpace(s[0]) {
      StripLeftKeepsLast(s[1..]);
    }
  }

  /**
   * The separators 0x1C to 0x1F are not white space to `int()`: one at
   * either end of a text makes `int()` refuse it, whatever the text.
   */
  lemma SeparatorsRefused(c: char, s: string)
    requires 0x1C <= c as int <= 0x1F
    ensures ParseInt([c] + s) == None
    ensures ParseInt(s + [c]) == None
  {
    var a := [c] + s;
    StripLeftStops(a);
    StripRightKeepsFirst(a);
    RefusedByEnds(a);
    var b := s + [c];
    StripLeftKeepsLast(b);
    StripRightStops(StripLeft(b));
    RefusedByEnds(b);
  }

  /** A text that trims to one starting with neither a digit nor a sign, or ending in a non-digit, is refused. */
  lemma RefusedByEnds(x: string)
    requires Trim(x) != []
    requires || (!IsDigit(Trim(x)[0]) && Trim(x)[0] != '+' && Trim(x)[0] != '-')
             || !IsDigit(Trim(x)[|Trim(x)| - 1])
    ensures ParseInt(x) == None
  {
  }

  /** Texts `int()` refuses: empty, blank, a bare sign, a letter, a doubled or trailing underscore. */
  lemma ParseIntRejects()
    ensures ParseInt("") == None && ParseInt(" ") == None && ParseInt("-") == None
    ensures ParseInt("1__0") == None && ParseInt("1_") == None && ParseInt("abc") == None
  {
    assert StripLeft(" ") == "";
    assert Trim("1__0") == "1__0" by {
      assert StripLeft("1__0") == "1__0";
    }
    assert !WellFormedDigits("1__0") by {
      assert "1__0"[1] == '_' && !IsDigit("1__0"[2]);
    }
    assert Trim("1_") == "1_" by {
      assert StripLeft("1_") == "1_";
    }
    assert Trim("abc") == "abc" by {
      assert StripLeft("abc") == "abc";
    }
  }

  // ---------------------------------------------------------------------------
  // The scan of the argument list
  // ---------------------------------------------------------------------------

  /** What one iteration of the loop in parse_args does. */
  datatype Step = SetPort(value: string) | SetDb(value: string) | SetStatic(value: string) | Skip(token: string)

  /** The steps the loop takes from position `i` on. */
  function Scan(args: seq<string>, i: nat): seq<Step>
    requires i <= |args|
    decreases |args| - i
  {
    if i == |args| then []
    else if args[i] == "--port" && i + 1 < |args| then [SetPort(args[i + 1])] + Scan(args, i + 2)
    else if args[i] == "--db" && i + 1 < |args| then [SetDb(args[i + 1])] + Scan(args, i + 2)
    else if args[i] == "--static" && i + 1 < |args| then [SetStatic(args[i + 1])] + Scan(args, i + 2)
    else [Skip(args[i])] + Scan(args, i + 1)
  }

  /** The tokens a step consumed. */
  function Tokens(s: Step): seq<string> {
    match s
    case SetPort(v) => ["--port", v]
    case SetDb(v) => ["--db", v]
    case SetStatic(v) => ["--static", v]
    case Skip(t) => [t]
  }

  function Flatten(steps: seq<Step>): seq<string> {
    if steps == [] then [] else Tokens(steps[0]) + Flatten(steps[1..])
  }

  /** The scan consumes every token exactly once, in order. */
  lemma {:induction false} ScanCovers(args: seq<string>, i: nat)
    requires i <= |args|
    ensures Flatten(Scan(args, i)) == args[i..]
    decreases |args| - i
  {
    if i < |args| {
      var steps := Scan(args, i);
      assert steps[1..] == Scan(args, if steps[0].Skip? then i + 1 else i + 2);
      if steps[0].Skip? {
        ScanCovers(args, i + 1);
        assert args[i..] == [args[i]] + args[i + 1..];
      } else {
        ScanCovers(args, i + 2);
        assert args[i..] == [args[i], args[i + 1]] + args[i + 2..];
      }
    }
  }

  /** Applies the steps to a configuration, stopping at the first port `int()` refuses. */
  function Apply(c: Config, steps: seq<Step>): ParseResult
    decreases |steps|
  {
    if steps == [] then Parsed(c)
    else match steps[0]
      case SetPort(v) =>
        (match ParseInt(v)
         case None => BadPort(v)
         case Some(p) => Apply(c.(port := p), steps[1..]))
      case SetDb(v) => Apply(c.(dbPath := v), steps[1..])
      case SetStatic(v) => Apply(c.(staticDir := v), steps[1..])
      case Skip(_) => Apply(c, steps[1..])
  }

  /** The outcome of parse_args on `args`, as a function of the argument list. */
  function ArgsOutcome(args: seq<string>): ParseResult {
    Apply(DefaultConfig, Scan(args, 0))
  }

  /** `parse_args` over `sys.argv[1:]`. */
  method ParseArgs(args: seq<string>) returns (r: ParseResult)
    ensures r == ArgsOutcome(args)
  {
    var port := 8080;
    var dbPath := "/home/raven/lms-edge/backend/data/lms.db";
    var staticDir := "/home/raven/lms-edge/backend/static";
    var i := 0;
    while i < |args|
      invariant i <= |args|
      invariant Apply(Config(port, dbPath, staticDir), Scan(args, i)) == ArgsOutcome(args)
      decreases |args| - i
    {
      if args[i] == "--port" && i + 1 < |args| {
        var p := ParseInt(args[i + 1]);
        if p.None? {
          return BadPort(args[i + 1]);
        }
        port := p.value;
        i := i + 2;
      } else if args[i] == "--db" && i + 1 < |args| {
        dbPath := args[i + 1];
        i := i + 2;
      } else if args[i] == "--static" && i + 1 < |args| {
        staticDir := args[i + 1];
        i := i + 2;
      } else {
        i := i + 1;
      }
    }
    r := Parsed(Config(port, dbPath, staticDir));
  }

  // ---------------------------------------------------------------------------
  // Properties of the outcome
  // ---------------------------------------------------------------------------

  predicate IsFlag(t: string) { t == "--port" || t == "--db" || t == "--static" }

  /** Without any flag among the arguments every setting keeps its default. */
  lemma {:induction false} NoFlagsDefaults(args: seq<string>, i: nat)
    requires i <= |args|
    requires forall k :: i <= k < |args| ==> !IsFlag(args[k])
    ensures Apply(DefaultConfig, Scan(args, i)) == Parsed(DefaultConfig)
    decreases |args| - i
  {
    if i < |args| {
      NoFlagsDefaults(args, i + 1);
    }
  }

  /** A flag as the last argument has no value and is skipped. */
  lemma DanglingFlagSkipped(args: seq<string>, flag: string)
    requires IsFlag(flag)
    ensures Scan(args + [flag], |args|) == [Skip(flag)]
  {
  }

  /** The token after a flag is taken as its value even when it is itself a flag. */
  lemma FlagTakesNextToken(v: string, rest: seq<string>)
    ensures Scan(["--db", v] + rest, 0) == [SetDb(v)] + Scan(["--db", v] + rest, 2)
    ensures ArgsOutcome(["--db", "--port", "9000"]) == Parsed(DefaultConfig.(dbPath := "--port"))
  {
    var a := ["--db", "--port", "9000"];
    assert Scan(a, 2) == [Skip("9000")];
  }

  predicate SetsPort(steps: seq<Step>) { exists k :: 0 <= k < |steps| && steps[k].SetPort? }
  predicate SetsDb(steps: seq<Step>) { exists k :: 0 <= k < |steps| && steps[k].SetDb? }
  predicate SetsStatic(steps: seq<Step>) { exists k :: 0 <= k < |steps| && steps[k].SetStatic? }

  /**
   * A later occurrence of a flag overrides an earlier one: once the remaining
   * steps set a field, its current value does not affect the outcome.
   */
  lemma {:induction false} LaterFlagOverrides(c: Config, steps: seq<Step>, port: int, db: string, dir: string)
    ensures SetsPort(steps) ==> Apply(c.(port := port), steps) == Apply(c, steps)
    ensures SetsDb(steps) ==> Apply(c.(dbPath := db), steps) == Apply(c, steps)
    ensures SetsStatic(steps) ==> Apply(c.(staticDir := dir), steps) == Apply(c, steps)
    decreases |steps|
  {
    if steps != [] {
      var rest := steps[1..];
      LaterFlagOverrides(c, rest, port, db, dir);
      LaterFlagOverrides(c.(port := port), rest, port, db, dir);
      LaterFlagOverrides(c.(dbPath := db), rest, port, db, dir);
      LaterFlagOverrides(c.(staticDir := dir), rest, port, db, dir);
      match steps[0]
      case SetPort(v) =>
        if SetsDb(steps) { assert SetsDb(rest) by { var k :| 0 <= k < |steps| && steps[k].SetDb?; assert rest[k - 1] == steps[k]; } }
        if SetsStatic(steps) { assert SetsStatic(rest) by { var k :| 0 <= k < |steps| && steps[k].SetStatic?; assert rest[k - 1] == steps[k]; } }
        if ParseInt(v).Some? {
          var p := ParseInt(v).value;
          LaterFlagOverrides(c.(port := p), rest, port, db, dir);
          assert c.(dbPath := db).(port := p) == c.(port := p).(dbPath := db);
          assert c.(staticDir := dir).(port := p) == c.(port := p).(staticDir := dir);
        }
      case SetDb(v) =>
        if SetsPort(steps) { assert SetsPort(rest) by { var k :| 0 <= k < |steps| && steps[k].SetPort?; assert rest[k - 1] == steps[k]; } }
        if SetsStatic(steps) { assert SetsStatic(rest) by { var k :| 0 <= k < |steps| && steps[k].SetStatic?; assert rest[k - 1] == steps[k]; } }
        LaterFlagOverrides(c.(dbPath := v), rest, port, db, dir);
        assert c.(port := port).(dbPath := v) == c.(dbPath := v).(port := port);
        assert c.(staticDir := dir).(dbPath := v) == c.(dbPath := v).(staticDir := dir);
      case SetStatic(v) =>
        if SetsPort(steps) { assert SetsPort(rest) by { var k :| 0 <= k < |steps| && steps[k].SetPort?; assert rest[k - 1] == steps[k]; } }
        if SetsDb(steps) { assert SetsDb(rest) by { var k :| 0 <= k < |steps| && steps[k].SetDb?; assert rest[k - 1] == steps[k]; } }
        LaterFlagOverrides(c.(staticDir := v), rest, port, db, dir);
        assert c.(port := port).(staticDir := v) == c.(staticDir := v).(port := port);
        assert c.(dbPath := db).(staticDir := v) == c.(staticDir := v).(dbPath := db);
      case Skip(_) =>
        if SetsPort(steps) { assert SetsPort(rest) by { var k :| 0 <= k < |steps| && steps[k].SetPort?; assert rest[k - 1] == steps[k]; } }
        if SetsDb(steps) { assert SetsDb(rest) by { var k :| 0 <= k < |steps| && steps[k].SetDb?; assert rest[k - 1] == steps[k]; } }
        if SetsStatic(steps) { assert SetsStatic(rest) by { var k :| 0 <= k < |steps| && steps[k].SetStatic?; assert rest[k - 1] == steps[k]; } }
    }
  }

  /** A `--port` step whose value `int()` refuses. */
  predicate Refused(st: Step) {
    st.SetPort? && ParseInt(st.value).None?
  }

  /** The configuration after one step that is not a refused port. */
  function StepConfig(c: Config, st: Step): Config
    requires !Refused(st)
  {
    match st
    case SetPort(v) => c.(port := ParseInt(v).value)
    case SetDb(v) => c.(dbPath := v)
    case SetStatic(v) => c.(staticDir := v)
    case Skip(_) => c
  }

  /** Applying the steps fails at the first refused port, with its value, whatever follows. */
  lemma {:induction false} ApplyStopsAtRefusedPort(c: Config, steps: seq<Step>, k: nat)
    requires k < |steps| && Refused(steps[k])
    requires forall j :: 0 <= j < k ==> !Refused(steps[j])
    ensures Apply(c, steps) == BadPort(steps[k].value)
    decreases k
  {
    if k > 0 {
      assert Apply(c, steps) == Apply(StepConfig(c, steps[0]), steps[1..]);
      forall j | 0 <= j < k - 1
        ensures !Refused(steps[1..][j])
      {
        assert steps[1..][j] == steps[j + 1];
      }
      ApplyStopsAtRefusedPort(StepConfig(c, steps[0]), steps[1..], k - 1);
    }
  }

  /** Applying the steps fails only at a refused port, and then with that port's value. */
  lemma {:induction false} ApplyFailsOnlyAtRefusedPort(c: Config, steps: seq<Step>)
    ensures Apply(c, steps).BadPort? ==>
      exists k :: 0 <= k < |steps| && Refused(steps[k]) && Apply(c, steps).token == steps[k].value
    decreases |steps|
  {
    if steps != [] && !Refused(steps[0]) {
      assert Apply(c, steps) == Apply(StepConfig(c, steps[0]), steps[1..]);
      ApplyFailsOnlyAtRefusedPort(StepConfig(c, steps[0]), steps[1..]);
      if Apply(c, steps).BadPort? {
        var k :| 0 <= k < |steps[1..]| && Refused(steps[1..][k]) && Apply(c, steps).token == steps[1..][k].value;
        assert steps[k + 1] == steps[1..][k];
      }
    }
  }

  /**
   * parse_args fails exactly at the first `--port` value `int()` refuses,
   * reporting that value, whatever arguments follow it.
   */
  lemma BadPortFails(args: seq<string>, k: nat)
    requires k < |Scan(args, 0)| && Refused(Scan(args, 0)[k])
    requires forall j :: 0 <= j < k ==> !Refused(Scan(args, 0)[j])
    ensures ArgsOutcome(args) == BadPort(Scan(args, 0)[k].value)
  {
    ApplyStopsAtRefusedPort(DefaultConfig, Scan(args, 0), k);
  }
}
