/** OpenCL status codes and their checking: the switch from code to name and
    the check that funnels a failing status into an error report. */
module ClErrors {

  const CL_SUCCESS: int := 0
  /** The status an enqueue returns for a work dimension outside 1..3. */
  const CL_INVALID_WORK_DIMENSION: int := -53
  /** The status an enqueue returns when a global size is not a multiple of
      the given work-group size. */
  const CL_INVALID_WORK_GROUP_SIZE: int := -54
  /** The status clCreateBuffer returns for a size of zero. */
  const CL_INVALID_BUFFER_SIZE: int := -61
  const UNKNOWN_ERROR: string := "Unknown OpenCL Error"

  /** The names of the switch's cases, in source order, in three runs: the
      runtime codes 0 .. -19, and the compile-time codes -30 .. -49 and -50 .. -72. */
  const RuntimeNames: seq<string> := [
    "CL_SUCCESS",
    "CL_DEVICE_NOT_FOUND",
    "CL_DEVICE_NOT_AVAILABLE",
    "CL_COMPILER_NOT_AVAILABLE",
    "CL_MEM_OBJECT_ALLOCATION_FAILURE",
    "CL_OUT_OF_RESOURCES",
    "CL_OUT_OF_HOST_MEMORY",
    "CL_PROFILING_INFO_NOT_AVAILABLE",
    "CL_MEM_COPY_OVERLAP",
    "CL_IMAGE_FORMAT_MISMATCH",
    "CL_IMAGE_FORMAT_NOT_SUPPORTED",
    "CL_BUILD_PROGRAM_FAILURE",
    "CL_MAP_FAILURE",
    "CL_MISALIGNED_SUB_BUFFER_OFFSET",
    "CL_EXEC_STATUS_ERROR_FOR_EVENTS_IN_WAIT_LIST",
    "CL_COMPILE_PROGRAM_FAILURE",
    "CL_LINKER_NOT_AVAILABLE",
    "CL_LINK_PROGRAM_FAILURE",
    "CL_DEVICE_PARTITION_FAILED",
    "CL_KERNEL_ARG_INFO_NOT_AVAILABLE"
  ]

  const InvalidNamesLow: seq<string> := [
    "CL_INVALID_VALUE",
    "CL_INVALID_DEVICE_TYPE",
    "CL_INVALID_PLATFORM",
    "CL_INVALID_DEVICE",
    "CL_INVALID_CONTEXT",
    "CL_INVALID_QUEUE_PROPERTIES",
    "CL_INVALID_COMMAND_QUEUE",
    "CL_INVALID_HOST_PTR",
    "CL_INVALID_MEM_OBJECT",
    "CL_INVALID_IMAGE_FORMAT_DESCRIPTOR",
    "CL_INVALID_IMAGE_SIZE",
    "CL_INVALID_SAMPLER",
    "CL_INVALID_BINARY",
    "CL_INVALID_BUILD_OPTIONS",
    "CL_INVALID_PROGRAM",
    "CL_INVALID_PROGRAM_EXECUTABLE",
    "CL_INVALID_KERNEL_NAME",
    "CL_INVALID_KERNEL_DEFINITION",
    "CL_INVALID_KERNEL",
    "CL_INVALID_ARG_INDEX"
  ]

  const InvalidNamesHigh: seq<string> := [
    "CL_INVALID_ARG_VALUE",
    "CL_INVALID_ARG_SIZE",
    "CL_INVALID_KERNEL_ARGS",
    "CL_INVALID_WORK_DIMENSION",
    "CL_INVALID_WORK_GROUP_SIZE",
    "CL_INVALID_WORK_ITEM_SIZE",
    "CL_INVALID_GLOBAL_OFFSET",
    "CL_INVALID_EVENT_WAIT_LIST",
    "CL_INVALID_EVENT",
    "CL_INVALID_OPERATION",
    "CL_INVALID_GL_OBJECT",
    "CL_INVALID_BUFFER_SIZE",
    "CL_INVALID_MIP_LEVEL",
    "CL_INVALID_GLOBAL_WORK_SIZE",
    "CL_INVALID_PROPERTY",
    "CL_INVALID_IMAGE_DESCRIPTOR",
    "CL_INVALID_COMPILER_OPTIONS",
    "CL_INVALID_LINKER_OPTIONS",
    "CL_INVALID_DEVICE_PARTITION_COUNT",
    "CL_INVALID_PIPE_SIZE",
    "CL_INVALID_DEVICE_QUEUE",
    "CL_INVALID_SPEC_ID",
    "CL_MAX_SIZE_RESTRICTION_EXCEEDED"
  ]

  const ErrorNames: seq<string> := RuntimeNames + InvalidNamesLow + InvalidNamesHigh

  /** The codes the switch lists: 0, -1 .. -19 and -30 .. -72. */
  predicate Listed(err: int)
  {
    err == 0 || -19 <= err <= -1 || -72 <= err <= -30
  }

  /** The code of row i: the cases run 0, -1, ..., -19, then -30, ..., -72. */
  function CodeAt(i: nat): int
  {
    if i == 0 then 0 else if i <= 19 then -(i as int) else -(i as int + 10)
  }

  lemma NamesFacts()
    ensures |ErrorNames| == 63
    ensures ErrorNames[0] == "CL_SUCCESS"
    ensures UNKNOWN_ERROR !in ErrorNames
    ensures "CL_SUCCESS" !in ErrorNames[1..]
  {
    RuntimeFacts();
    LowFacts();
    HighFacts();
    assert ErrorNames[1..] == RuntimeNames[1..] + InvalidNamesLow + InvalidNamesHigh;
  }

  lemma RuntimeFacts()
    ensures |RuntimeNames| == 20 && RuntimeNames[0] == "CL_SUCCESS"
    ensures UNKNOWN_ERROR !in RuntimeNames && "CL_SUCCESS" !in RuntimeNames[1..]
  {
    StartsWithC(RuntimeNames);
    LongerThanSuccess(RuntimeNames[1..]);
  }

  lemma LowFacts()
    ensures |InvalidNamesLow| == 20
    ensures UNKNOWN_ERROR !in InvalidNamesLow && "CL_SUCCESS" !in InvalidNamesLow
  {
    StartsWithC(InvalidNamesLow);
    LongerThanSuccess(InvalidNamesLow);
  }

  lemma HighFacts()
    ensures |InvalidNamesHigh| == 23
    ensures UNKNOWN_ERROR !in InvalidNamesHigh && "CL_SUCCESS" !in InvalidNamesHigh
  {
    StartsWithC(InvalidNamesHigh);
    LongerThanSuccess(InvalidNamesHigh);
  }

  /** Names that all begin with 'C' cannot be the default text. */
  lemma StartsWithC(names: seq<string>)
    requires forall i :: 0 <= i < |names| ==> |names[i]| >= 1 && names[i][0] == 'C'
    ensures UNKNOWN_ERROR !in names
  {
    assert UNKNOWN_ERROR[0] == 'U';
  }

  /** Names all longer than "CL_SUCCESS" cannot be it. */
  lemma LongerThanSuccess(names: seq<string>)
    requires forall i :: 0 <= i < |names| ==> |names[i]| > 10
    ensures "CL_SUCCESS" !in names
  {
    assert |"CL_SUCCESS"| == 10;
  }

  /** Linear search of the switch's cases from row `from` on: row i carries
      code CodeAt(i) and name ErrorNames[i]. */
  function Lookup(err: int, from: nat): (r: string)
    requires from <= |ErrorNames|
    decreases |ErrorNames| - from
  {
    if from == |ErrorNames| then UNKNOWN_ERROR
    else if CodeAt(from) == err then ErrorNames[from]
    else Lookup(err, from + 1)
  }

  /** _cl_err_to_str: total; a listed code gives the name of its own case,
      anything else gives the "Unknown OpenCL Error" default. */
  function ErrToStr(err: int): (s: string)
    ensures err == CL_SUCCESS ==> s == "CL_SUCCESS"
    ensures s == UNKNOWN_ERROR <==> !Listed(err)
    ensures forall i :: 0 <= i < |ErrorNames| && CodeAt(i) == err ==> s == ErrorNames[i]
    ensures err != CL_SUCCESS ==> s != "CL_SUCCESS"
  {
    NamesFacts();
    LookupFinds(err, 0);
    ListedIsTableCode(err);
    OnlyZeroIsSuccess(err);
    Lookup(err, 0)
  }

  lemma WorkDimensionName()
    ensures ErrToStr(CL_INVALID_WORK_DIMENSION) == "CL_INVALID_WORK_DIMENSION"
  {
    HighFacts();
    assert CodeAt(43) == CL_INVALID_WORK_DIMENSION;
    assert ErrorNames[43] == InvalidNamesHigh[3];
  }

  lemma WorkGroupSizeName()
    ensures ErrToStr(CL_INVALID_WORK_GROUP_SIZE) == "CL_INVALID_WORK_GROUP_SIZE"
  {
    HighFacts();
    assert CodeAt(44) == CL_INVALID_WORK_GROUP_SIZE;
    assert ErrorNames[44] == InvalidNamesHigh[4];
  }

  lemma BufferSizeName()
    ensures ErrToStr(CL_INVALID_BUFFER_SIZE) == "CL_INVALID_BUFFER_SIZE"
  {
    HighFacts();
    assert CodeAt(51) == CL_INVALID_BUFFER_SIZE;
    assert ErrorNames[51] == InvalidNamesHigh[11];
  }

  lemma OnlyZeroIsSuccess(err: int)
    ensures forall i :: 0 <= i < |ErrorNames| && CodeAt(i) == err && err != CL_SUCCESS ==>
      ErrorNames[i] != "CL_SUCCESS"
  {
    NamesFacts();
    forall i | 0 <= i < |ErrorNames| && CodeAt(i) == err && err != CL_SUCCESS
      ensures ErrorNames[i] != "CL_SUCCESS"
    {
      assert ErrorNames[i] == ErrorNames[1..][i - 1];
    }
  }

  lemma {:induction false} LookupFinds(err: int, from: nat)
    requires from <= |ErrorNames|
    ensures forall i :: from <= i < |ErrorNames| && CodeAt(i) == err ==>
      Lookup(err, from) == ErrorNames[i]
    ensures Lookup(err, from) == UNKNOWN_ERROR <==>
      forall i :: from <= i < |ErrorNames| ==> CodeAt(i) != err
    decreases |ErrorNames| - from
  {
    NamesFacts();
    if from < |ErrorNames| {
      LookupFinds(err, from + 1);
      forall i | from < i < |ErrorNames| ensures CodeAt(i) != CodeAt(from) {
        CodesDistinct(from, i);
      }
      assert ErrorNames[from] in ErrorNames;
    }
  }

  lemma CodesDistinct(i: nat, j: nat)
    requires i < j < 63
    ensures CodeAt(i) != CodeAt(j)
  {
  }

  lemma ListedIsTableCode(err: int)
    ensures Listed(err) <==> exists i :: 0 <= i < |ErrorNames| && CodeAt(i) == err
  {
    NamesFacts();
    if Listed(err) {
      var i := if err == 0 then 0 else if err >= -19 then -err else -err - 10;
      assert CodeAt(i) == err;
    }
  }

  /** The values _check_cl passes to handle_error after its format string. */
  datatype Report = Report(code: int, name: string, expr: string, line: int, file: string)

  /** The outcome of one check: nothing happens, handle_error is called with
      the format and its values (src/), or the message is printed and the
      process aborts (older file). */
  datatype CheckOutcome = Passed | HandlerCalled(report: Report) | Aborted(report: Report)

  /** _check_cl: handle_error is called exactly when the status is not
      CL_SUCCESS, with the status, its name and the checked expression's text
      and place as the values of CHECK_FORMAT. */
  function CheckCl(err: int, expr: string, line: int, file: string): (o: CheckOutcome)
    ensures o == Passed <==> err == CL_SUCCESS
    ensures o != Passed ==> o == HandlerCalled(Report(err, ErrToStr(err), expr, line, file))
    ensures o != Passed ==> o.report.name != "CL_SUCCESS"
  {
    if err != CL_SUCCESS then HandlerCalled(Report(err, ErrToStr(err), expr, line, file))
    else Passed
  }

  /** The format string _check_cl passes to handle_error. */
  const CHECK_FORMAT: string := "OpenCL error %d (%s) in \"%s\" at line %d in file %s"

  /** A call of the installed error hook: the format string alone, or the
      format string with the values it formats. */
  datatype HookCall = BareFormat(format: string) | FormatWithValues(format: string, report: Report)

  /** handle_error(err, ...): calls the installed hook with err alone. The
      values after the format are never collected with va_start, so they do
      not reach the hook (whose declared type also takes a va_list, which the
      call does not pass). */
  function HandleError(format: string, report: Report): HookCall
  {
    BareFormat(format)
  }

  /** handle_error as intended: the values after the format collected with
      va_start and handed to the hook with it. */
  function HandleErrorForwarding(format: string, report: Report): HookCall
  {
    FormatWithValues(format, report)
  }

  /** A failing check reaches the hook with the bare format: the status, its
      name, the expression, the line and the file are all lost, so the hook
      call differs from the one the forwarding handle_error makes. */
  lemma CheckClLosesValues(err: int, expr: string, line: int, file: string)
    requires err != CL_SUCCESS
    ensures CheckCl(err, expr, line, file).HandlerCalled?
    ensures HandleError(CHECK_FORMAT, CheckCl(err, expr, line, file).report) == BareFormat(CHECK_FORMAT)
    ensures HandleError(CHECK_FORMAT, CheckCl(err, expr, line, file).report) !=
      HandleErrorForwarding(CHECK_FORMAT, CheckCl(err, expr, line, file).report)
  {
  }

  /** With the forwarding handle_error, a failing check's hook call carries the
      status, its name, the expression, the line and the file. */
  lemma CheckClForwardsValues(err: int, expr: string, line: int, file: string)
    requires err != CL_SUCCESS
    ensures CheckCl(err, expr, line, file).HandlerCalled?
    ensures HandleErrorForwarding(CHECK_FORMAT, CheckCl(err, expr, line, file).report) ==
      FormatWithValues(CHECK_FORMAT, Report(err, ErrToStr(err), expr, line, file))
  {
  }

  /** _check_cl in the older file: it prints and aborts itself; there is no hook. */
  function LegacyCheckCl(err: int, expr: string, line: int, file: string): (o: CheckOutcome)
    ensures o == Passed <==> err == CL_SUCCESS
    ensures !o.HandlerCalled?
    ensures o.Aborted? ==> o.report == Report(err, ErrToStr(err), expr, line, file)
  {
    if err != CL_SUCCESS then Aborted(Report(err, ErrToStr(err), expr, line, file))
    else Passed
  }

  /** The older CHECK_CL: the one-argument form checks the value of the
      expression itself; the two-argument form evaluates the expression (a call
      yielding a result and writing a status into `err`), keeps
      its result, and then checks the written status. */
  function LegacyCheckClOne(value: int, exprText: string, line: int, file: string): (o: CheckOutcome)
    ensures o == Passed <==> value == CL_SUCCESS
  {
    LegacyCheckCl(value, exprText, line, file)
  }

  function LegacyCheckClTwo<T>(call: (T, int), exprText: string, line: int, file: string): (r: (T, CheckOutcome))
    ensures r.0 == call.0
    ensures r.1 == Passed <==> call.1 == CL_SUCCESS
    ensures r.1.Aborted? ==> r.1.report.code == call.1
  {
    (call.0, LegacyCheckCl(call.1, exprText, line, file))
  }
}
