/** Steps 1 to 3 of the job: the guard on the argument array, the extraction of the
    five arguments, and the range check on the bucket duration. Either step may stop
    the job; stopping is modelled as a `JobError` instead of a message and an exit. */
module Arguments {
  import opened Results
  import opened Buckets

  /** Why the job stops before it reads any data. */
  datatype JobError =
    | InsufficientArguments          // the guard fired: "Insufficient arguments provided"
    | NullArgument(index: nat)       // the guard itself dereferenced a null argument
    | DurationOutOfRange(hours: int) // "bucket duration must be between 1 and 24"

  /** appName, inputFilePath, delimiter, bucketDurationInHours, outputFilePath. */
  const ARGUMENT_COUNT := 5

  /** The configuration of one run, as the locals of step 2 hold it. */
  datatype JobConfig = JobConfig(
    appName: string,
    inputPath: string,
    delimiter: string,
    bucketHours: Duration,
    outputPath: string)

  /** One disjunct `args[i] == null && args[i].trim().isEmpty()` of the guard, as Java
      evaluates it. For a non-null argument the left operand is false and `&&` stops
      there, so a blank argument is never caught; for a null argument the right
      operand calls `trim()` on null and throws. */
  function BlankCheck(arg: Nullable<string>, index: nat): (r: Result<bool, JobError>)
    ensures r.Success? <==> arg.Ref?
    ensures r.Success? ==> !r.value
    ensures r.Failure? ==> r.error == NullArgument(index)
  {
    match arg
    case Null => Failure(NullArgument(index))
    case Ref(_) => Success(false)
  }

  /** The disjuncts of the guard from position i on, evaluated left to right with
      the short-circuit `||`. `Success(true)` would mean that the guard fires. */
  function GuardFrom(args: seq<Nullable<string>>, i: nat): (r: Result<bool, JobError>)
    requires |args| >= ARGUMENT_COUNT && i <= ARGUMENT_COUNT
    ensures r != Success(true)
    ensures r == Success(false) <==> forall j :: i <= j < ARGUMENT_COUNT ==> args[j].Ref?
    ensures r.Failure? ==> exists j :: i <= j < ARGUMENT_COUNT && FirstNull(args, i, j) && r.error == NullArgument(j)
    decreases ARGUMENT_COUNT - i
  {
    if i == ARGUMENT_COUNT then Success(false)
    else
      match BlankCheck(args[i], i)
      case Failure(e) =>
        assert FirstNull(args, i, i);
        Failure(e)
      case Success(b) =>
        if b then Success(true) else GuardFrom(args, i + 1)
  }

  /** Position j holds the first null argument at or after position i. */
  predicate FirstNull(args: seq<Nullable<string>>, i: nat, j: nat)
    requires j < |args|
  {
    i <= j && args[j].Null? && forall k :: i <= k < j ==> args[k].Ref?
  }

  /** Step 1: the whole guard, `args.length < 5 || ...`. On success it yields the
      first five arguments, all of them non-null. */
  function CheckArguments(args: seq<Nullable<string>>): (r: Result<seq<string>, JobError>)
    ensures r == Failure(InsufficientArguments) <==> |args| < ARGUMENT_COUNT
    ensures r.Success? <==> |args| >= ARGUMENT_COUNT && forall i :: 0 <= i < ARGUMENT_COUNT ==> args[i].Ref?
    ensures r.Success? ==> |r.value| == ARGUMENT_COUNT && forall i :: 0 <= i < ARGUMENT_COUNT ==> args[i] == Ref(r.value[i])
    ensures r.Failure? && r.error != InsufficientArguments ==>
      exists j :: 0 <= j < ARGUMENT_COUNT <= |args| && FirstNull(args, 0, j) && r.error == NullArgument(j)
  {
    if |args| < ARGUMENT_COUNT then Failure(InsufficientArguments)
    else
      match GuardFrom(args, 0)
      case Failure(e) => Failure(e)
      case Success(_) => Success(seq(ARGUMENT_COUNT, i requires 0 <= i < ARGUMENT_COUNT => args[i].value))
  }

  /** Java's `String.trim` treats every character up to U+0020 as removable. */
  predicate IsTrimmable(c: char) {
    c <= ' '
  }

  /** Every character of s is removable by `trim`: a blank (or empty) string. */
  predicate IsBlank(s: string) {
    forall k :: 0 <= k < |s| ==> IsTrimmable(s[k])
  }

  /** s without its leading removable characters: empty exactly when s is blank. */
  function TrimStart(s: string): (t: string)
    ensures |t| <= |s| && t == s[|s| - |t|..]
    ensures IsBlank(s[..|s| - |t|])
    ensures t == [] || !IsTrimmable(t[0])
    ensures t == [] <==> IsBlank(s)
  {
    if s != [] && IsTrimmable(s[0]) then
      var t := TrimStart(s[1..]);
      TrimStartStep(s, t);
      t
    else s
  }

  /** Dropping one removable first character carries TrimStart's facts from s[1..] to s. */
  lemma TrimStartStep(s: string, t: string)
    requires s != [] && IsTrimmable(s[0])
    requires |t| <= |s| - 1 && t == s[1..][|s| - 1 - |t|..] && IsBlank(s[1..][..|s| - 1 - |t|])
    requires t == [] <==> IsBlank(s[1..])
    ensures t == s[|s| - |t|..] && IsBlank(s[..|s| - |t|])
    ensures t == [] <==> IsBlank(s)
  {
    assert s[..|s| - |t|] == [s[0]] + s[1..][..|s| - 1 - |t|];
    assert IsBlank(s) <==> IsBlank(s[1..]) by {
      assert forall k :: 1 <= k < |s| ==> s[k] == s[1..][k - 1];
    }
  }

  /** s without its trailing removable characters: empty exactly when s is blank. */
  function TrimEnd(s: string): (t: string)
    ensures |t| <= |s| && t == s[..|t|]
    ensures IsBlank(s[|t|..])
    ensures t == [] || !IsTrimmable(t[|t| - 1])
    ensures t == [] <==> IsBlank(s)
  {
    if s != [] && IsTrimmable(s[|s| - 1]) then
      var t := TrimEnd(s[..|s| - 1]);
      TrimEndStep(s, t);
      t
    else s
  }

  /** Dropping one removable last character carries TrimEnd's facts from the rest to s. */
  lemma TrimEndStep(s: string, t: string)
    requires s != [] && IsTrimmable(s[|s| - 1])
    requires |t| <= |s| - 1 && t == s[..|s| - 1][..|t|] && IsBlank(s[..|s| - 1][|t|..])
    requires t == [] <==> IsBlank(s[..|s| - 1])
    ensures t == s[..|t|] && IsBlank(s[|t|..])
    ensures t == [] <==> IsBlank(s)
  {
    var p := s[..|s| - 1];
    assert s[|t|..] == p[|t|..] + [s[|s| - 1]];
    assert IsBlank(s) <==> IsBlank(p) by {
      assert forall k :: 0 <= k < |p| ==> s[k] == p[k];
    }
  }

  /** `String.trim`: s without removable characters at either end. The result is the
      slice of s left between a blank prefix and a blank suffix; it is empty exactly
      when s is blank, and otherwise starts and ends with a character that `trim` keeps. */
  function Trim(s: string): (t: string)
    ensures exists a, b :: 0 <= a <= b <= |s| && t == s[a..b] && IsBlank(s[..a]) && IsBlank(s[b..])
    ensures t == [] <==> IsBlank(s)
    ensures t != [] ==> !IsTrimmable(t[0]) && !IsTrimmable(t[|t| - 1])
    ensures |t| <= |s|
  {
    var u := TrimStart(s);
    var t := TrimEnd(u);
    assert t != [] ==> t[0] == u[0];
    TrimmedSlice(s, u, t);
    t
  }

  /** A blank prefix of s cut off, then a blank suffix of the rest: what is left is a
      slice of s between a blank prefix and a blank suffix. */
  lemma TrimmedSlice(s: string, u: string, t: string)
    requires |u| <= |s| && u == s[|s| - |u|..] && IsBlank(s[..|s| - |u|])
    requires |t| <= |u| && t == u[..|t|] && IsBlank(u[|t|..])
    ensures exists a, b :: 0 <= a <= b <= |s| && t == s[a..b] && IsBlank(s[..a]) && IsBlank(s[b..])
  {
    var a := |s| - |u|;
    var b := a + |t|;
    assert s[a..b] == u[..|t|];
    assert s[b..] == u[|t|..];
  }

  /** Step 3: the duration is accepted exactly when it lies between 1 and 24. */
  function ValidateDuration(hours: int): (r: Result<Duration, JobError>)
    ensures r.Success? <==> 1 <= hours <= 24
    ensures r.Success? ==> r.value == hours
    ensures r.Failure? ==> r.error == DurationOutOfRange(hours)
  {
    if hours < 1 || hours > 24 then Failure(DurationOutOfRange(hours))
    else Success(hours)
  }

  /** Steps 1 to 3. `parse` stands for `Integer.valueOf` applied to the trimmed fourth
      argument. The run is configured exactly when the guard lets the arguments through
      and the parsed duration is in range; the configuration holds the trimmed
      arguments. */
  function Configure(args: seq<Nullable<string>>, parse: string -> int): (r: Result<JobConfig, JobError>)
    ensures r.Success? <==>
      CheckArguments(args).Success? && 1 <= parse(Trim(args[3].value)) <= 24
    ensures r.Success? ==>
      && r.value.appName == Trim(args[0].value)
      && r.value.inputPath == Trim(args[1].value)
      && r.value.delimiter == Trim(args[2].value)
      && r.value.bucketHours == parse(Trim(args[3].value))
      && r.value.outputPath == Trim(args[4].value)
    ensures r.Failure? && CheckArguments(args).Success? ==>
      r.error == DurationOutOfRange(parse(Trim(args[3].value)))
    ensures CheckArguments(args).Failure? ==> r == Failure(CheckArguments(args).error)
  {
    match CheckArguments(args)
    case Failure(e) => Failure(e)
    case Success(a) =>
      var appName, inputPath, delimiter, outputPath := Trim(a[0]), Trim(a[1]), Trim(a[2]), Trim(a[4]);
      match ValidateDuration(parse(Trim(a[3])))
      case Failure(e) => Failure(e)
      case Success(d) => Success(JobConfig(appName, inputPath, delimiter, d, outputPath))
  }

  /** With no null arguments, the guard rejects exactly the arrays of fewer than five
      arguments: however blank an argument is, it is let through. */
  lemma {:induction false} GuardRejectsOnlyShortArrays(args: seq<Nullable<string>>)
    requires forall i :: 0 <= i < |args| ==> args[i].Ref?
    ensures CheckArguments(args).Failure? <==> |args| < ARGUMENT_COUNT
    ensures CheckArguments(args).Failure? ==> CheckArguments(args).error == InsufficientArguments
  {
  }

  /** A blank argument passes the guard and reaches the job trimmed to the empty
      string; with the fourth argument a valid duration the run goes ahead with an
      empty application name, input path, delimiter or output path. */
  lemma {:induction false} BlankArgumentAccepted(args: seq<Nullable<string>>, parse: string -> int, i: nat)
    requires |args| >= ARGUMENT_COUNT && forall j :: 0 <= j < ARGUMENT_COUNT ==> args[j].Ref?
    requires i < ARGUMENT_COUNT && i != 3 && IsBlank(args[i].value)
    requires 1 <= parse(Trim(args[3].value)) <= 24
    ensures Configure(args, parse).Success?
    ensures i == 0 ==> Configure(args, parse).value.appName == ""
    ensures i == 1 ==> Configure(args, parse).value.inputPath == ""
    ensures i == 2 ==> Configure(args, parse).value.delimiter == ""
    ensures i == 4 ==> Configure(args, parse).value.outputPath == ""
  {
  }
}
