/**
 * Screen capture of an Android device through `adb exec-out screencap -p`,
 * with one retry, detection of device-side refusal (secure screens) and a
 * black placeholder image whenever no real capture is obtained.
 *
 * The external process and the image and text codecs are not modelled: the
 * process is a `Transport` giving the outcome of each invocation in turn, and
 * the codecs are the functions held by a `Codec`.
 */
module AdbScreenshot {
  import opened Wrappers
  import opened Text

  /** The `range(2)` of the retry loop. */
  const MaxAttempts: nat := 2

  /** Size of the placeholder image. */
  const FallbackWidth: int := 1080
  const FallbackHeight: int := 2400

  /** The eight-byte PNG signature (section 5.2 of the W3C PNG Specification). */
  const PngSignature: Bytes := [0x89, 0x50, 0x4E, 0x47, 0x0D, 0x0A, 0x1A, 0x0A]

  /** The arguments that follow the adb prefix on every invocation. */
  const ScreencapArgs: seq<string> := ["exec-out", "screencap", "-p"]

  /** The two texts by which the device signals that it refused the capture. */
  const StatusMarker: string := "Status: -1"
  const FailedMarker: string := "Failed"

  /** The result record; `base64Data` is the text encoding of a PNG image. */
  datatype Screenshot = Screenshot(base64Data: string, width: int, height: int, isSensitive: bool)

  datatype Size = Size(width: int, height: int)

  /**
   * The foreign codecs the procedure calls:
   * - `decodeSize`: opening the bytes as an image and reading its size; `None` when
   *   the image library raises,
   * - `base64`: base64 encoding followed by an ASCII decode of the result,
   * - `utf8Ignore`: UTF-8 decoding that drops undecodable bytes,
   * - `placeholderPng`: the PNG encoding of an all-black 1080 by 2400 RGB image.
   */
  datatype Codec = Codec(
    decodeSize: Bytes -> Option<Size>,
    base64: Bytes -> string,
    utf8Ignore: Bytes -> string,
    placeholderPng: Bytes)

  /**
   * What one invocation of the process produced: it raised (launch failure or
   * timeout), or it ran to an end with captured stdout, stderr and exit status.
   */
  datatype Attempt = Raised(reason: string) | Ran(stdout: Bytes, stderr: Bytes, exitCode: int)

  /** The outcome of the k-th invocation of the process, for k = 0, 1, ... */
  type Transport = nat -> Attempt

  type Command = seq<string>

  /** The errors the procedure records or lets escape. */
  datatype Error =
    | ProcessError(reason: string)
    | EmptyOutput      // "empty screenshot output"
    | NotPng           // "screenshot output is not PNG"
    | DecodeError      // the image library raised on PNG-prefixed output

  /** How one attempt is judged: it ends the loop, or it calls for the next attempt. */
  datatype Verdict =
    | Captured(shot: Screenshot)
    | Refused
    | Retry(error: Error)
    | Escape(error: Error)

  /** The diagnostic lines: after exhausting the retries, and from the outer guard. */
  datatype LogLine = RetryWarning(error: Error) | CaptureFailure(error: Error)

  /** Everything one capture is observed to do. */
  datatype CaptureRun = CaptureRun(shot: Screenshot, commands: seq<Command>, log: seq<LogLine>)

  /** Python truthiness of an optional string: present and non-empty. */
  predicate IsTruthy(deviceId: Option<string>)
  {
    deviceId.Some? && |deviceId.value| > 0
  }

  /** The adb command prefix, selecting a device when one is named. */
  function AdbPrefix(deviceId: Option<string>): (prefix: Command)
    ensures |prefix| >= 1 && prefix[0] == "adb"
    ensures IsTruthy(deviceId) <==> |prefix| == 3
    ensures IsTruthy(deviceId) ==> prefix[1..] == ["-s", deviceId.value]
    ensures !IsTruthy(deviceId) ==> prefix == ["adb"]
  {
    if IsTruthy(deviceId) then ["adb", "-s", deviceId.value] else ["adb"]
  }

  /** The command issued on every attempt. */
  function ScreencapCommand(deviceId: Option<string>): Command
  {
    AdbPrefix(deviceId) + ScreencapArgs
  }

  /** The device an adb command line selects with `-s`, if any. */
  function SelectedDevice(command: Command): Option<string>
  {
    if |command| >= 3 && command[0] == "adb" && command[1] == "-s" then Some(command[2]) else None
  }

  /** The screencap command ends in the screencap arguments and selects exactly a truthy device. */
  lemma CommandTargetsDevice(deviceId: Option<string>)
    ensures var command := ScreencapCommand(deviceId);
      |command| == (if IsTruthy(deviceId) then 6 else 4) &&
      command[0] == "adb" && command[|command| - 3..] == ScreencapArgs &&
      SelectedDevice(command) == (if IsTruthy(deviceId) then deviceId else None)
  {
  }

  /** The black placeholder, carrying the given sensitivity flag. */
  function Fallback(codec: Codec, isSensitive: bool): (shot: Screenshot)
    ensures shot.width == FallbackWidth && shot.height == FallbackHeight
    ensures shot.isSensitive == isSensitive
    ensures shot.base64Data == codec.base64(codec.placeholderPng)
  {
    Screenshot(codec.base64(codec.placeholderPng), FallbackWidth, FallbackHeight, isSensitive)
  }

  /** The sensitive and the non-sensitive placeholders differ in the flag alone. */
  lemma FallbacksDifferOnlyInFlag(codec: Codec)
    ensures Fallback(codec, true) != Fallback(codec, false)
    ensures Fallback(codec, true).(isSensitive := false) == Fallback(codec, false)
  {
  }

  predicate HasRefusalMarker(text: string)
  {
    Contains(StatusMarker, text) || Contains(FailedMarker, text)
  }

  /** stderr as text: decoded only when non-empty. */
  function StderrText(codec: Codec, stderr: Bytes): string
  {
    if |stderr| > 0 then codec.utf8Ignore(stderr) else ""
  }

  /** The judgement of one attempt, in the order the source tests its cases. */
  function Classify(codec: Codec, attempt: Attempt): (verdict: Verdict)
    ensures verdict.Captured? <==>
      attempt.Ran? && PngSignature <= attempt.stdout && codec.decodeSize(attempt.stdout).Some?
    ensures verdict.Escape? <==>
      attempt.Ran? && PngSignature <= attempt.stdout && codec.decodeSize(attempt.stdout).None?
    ensures verdict.Escape? ==> verdict.error == DecodeError
    ensures verdict.Captured? ==> !verdict.shot.isSensitive && verdict.shot.base64Data == codec.base64(attempt.stdout)
    ensures verdict.Refused? ==> attempt.Ran? && !(PngSignature <= attempt.stdout)
    ensures verdict.Captured? ==>
      codec.decodeSize(attempt.stdout) == Some(Size(verdict.shot.width, verdict.shot.height))
    ensures verdict.Retry? ==>
      (verdict.error ==
         if attempt.Raised? then ProcessError(attempt.reason)
         else if |attempt.stdout| == 0 then EmptyOutput
         else NotPng)
  {
    match attempt
    case Raised(reason) => Retry(ProcessError(reason))
    case Ran(stdout, stderr, _) =>
      var stderrText := StderrText(codec, stderr);
      if |stdout| == 0 then
        if HasRefusalMarker(stderrText) then Refused else Retry(EmptyOutput)
      else if !(PngSignature <= stdout) then
        if HasRefusalMarker(stderrText + codec.utf8Ignore(stdout)) then Refused else Retry(NotPng)
      else
        match codec.decodeSize(stdout)
        case None => Escape(DecodeError)
        case Some(size) => Captured(Screenshot(codec.base64(stdout), size.width, size.height, false))
  }

  /** The run once attempt `verdict`, the last of `commands`, has ended the loop. */
  function Conclude(codec: Codec, verdict: Verdict, commands: seq<Command>): (run: CaptureRun)
    requires !verdict.Retry?
    ensures run.commands == commands
    ensures verdict.Captured? ==> run.shot == verdict.shot
    ensures run.log == (if verdict.Escape? then [CaptureFailure(verdict.error)] else [])
    ensures !verdict.Captured? ==> run.shot == Fallback(codec, verdict.Refused?)
  {
    match verdict
    case Captured(shot) => CaptureRun(shot, commands, [])
    case Refused => CaptureRun(Fallback(codec, true), commands, [])
    case Escape(e) => CaptureRun(Fallback(codec, false), commands, [CaptureFailure(e)])
  }

  /**
   * Reference definition of a capture: the first attempt decides unless it is
   * retryable; then the second decides; two retryable attempts give the
   * non-sensitive placeholder, reporting the second attempt's error.
   */
  function Capture(codec: Codec, transport: Transport, deviceId: Option<string>): (run: CaptureRun)
    ensures 1 <= |run.commands| <= MaxAttempts
    ensures forall k :: 0 <= k < |run.commands| ==> run.commands[k] == ScreencapCommand(deviceId)
    ensures run.shot.isSensitive ==> run.shot == Fallback(codec, true) && run.log == []
  {
    var command := ScreencapCommand(deviceId);
    var first := Classify(codec, transport(0));
    if !first.Retry? then Conclude(codec, first, [command])
    else
      var second := Classify(codec, transport(1));
      if !second.Retry? then Conclude(codec, second, [command, command])
      else
        CaptureRun(Fallback(codec, false), [command, command],
                   [RetryWarning(second.error), CaptureFailure(second.error)])
  }

  /**
   * The capture procedure: at most `MaxAttempts` invocations, each classified;
   * refusal and success return at once, retryable failures overwrite the last
   * error, and every error reaching the outer guard becomes the non-sensitive
   * placeholder.
   */
  method GetScreenshot(codec: Codec, transport: Transport, deviceId: Option<string>)
    returns (shot: Screenshot, commands: seq<Command>, log: seq<LogLine>)
    ensures 1 <= |commands| <= MaxAttempts
    ensures forall k :: 0 <= k < |commands| ==> commands[k] == ScreencapCommand(deviceId)
    ensures CaptureRun(shot, commands, log) == Capture(codec, transport, deviceId)
  {
    var adbPrefix := AdbPrefix(deviceId);
    commands, log := [], [];
    var lastError: Option<Error> := None;
    for attempt := 0 to MaxAttempts
      invariant |commands| == attempt
      invariant forall k :: 0 <= k < attempt ==> commands[k] == ScreencapCommand(deviceId)
      invariant forall k :: 0 <= k < attempt ==> Classify(codec, transport(k)).Retry?
      invariant attempt == 0 ==> lastError == None
      invariant attempt > 0 ==> lastError == Some(Classify(codec, transport(attempt - 1)).error)
      invariant log == []
    {
      commands := commands + [adbPrefix + ["exec-out", "screencap", "-p"]];
      match transport(attempt)
      case Raised(reason) =>
        lastError := Some(ProcessError(reason));
        continue;
      case Ran(stdoutBytes, stderrBytes, _) =>
        var stderrText := "";
        if |stderrBytes| > 0 {
          stderrText := codec.utf8Ignore(stderrBytes);
        }
        if |stdoutBytes| == 0 {
          if Contains(StatusMarker, stderrText) || Contains(FailedMarker, stderrText) {
            shot := Fallback(codec, true);
            return;
          }
          lastError := Some(EmptyOutput);
          continue;
        }
        if !(PngSignature <= stdoutBytes) {
          var combinedText := stderrText + codec.utf8Ignore(stdoutBytes);
          if Contains(StatusMarker, combinedText) || Contains(FailedMarker, combinedText) {
            shot := Fallback(codec, true);
            return;
          }
          lastError := Some(NotPng);
          continue;
        }
        match codec.decodeSize(stdoutBytes)
        case None =>
          // the image library raises; the outer guard reports it
          shot := Fallback(codec, false);
          log := [CaptureFailure(DecodeError)];
          return;
        case Some(size) =>
          shot := Screenshot(codec.base64(stdoutBytes), size.width, size.height, false);
          return;
    }
    if lastError.Some? {
      // the retry warning, then `raise last_error` into the outer guard
      log := [RetryWarning(lastError.value), CaptureFailure(lastError.value)];
    }
    shot := Fallback(codec, false);
  }

  // ----- Properties of a capture -----

  /** Every attempt before the `k`-th was retryable. */
  predicate RetriedBefore(codec: Codec, transport: Transport, k: nat)
  {
    forall j :: 0 <= j < k ==> Classify(codec, transport(j)).Retry?
  }

  /** The last attempt a run made. */
  function LastVerdict(codec: Codec, transport: Transport, run: CaptureRun): Verdict
    requires |run.commands| >= 1
  {
    Classify(codec, transport(|run.commands| - 1))
  }

  /** An attempt is retried exactly when it raised, or gave unmarked empty or unmarked non-PNG output. */
  lemma RetryableOutcomes(codec: Codec, attempt: Attempt)
    ensures Classify(codec, attempt).Retry? <==>
      attempt.Raised? ||
      (|attempt.stdout| == 0 && !HasRefusalMarker(StderrText(codec, attempt.stderr))) ||
      (|attempt.stdout| > 0 && !(PngSignature <= attempt.stdout) &&
       !HasRefusalMarker(StderrText(codec, attempt.stderr) + codec.utf8Ignore(attempt.stdout)))
  {
  }

  /** An attempt is a refusal exactly when it ran and a marker appears on one of the two marker branches. */
  lemma RefusedOutcomes(codec: Codec, attempt: Attempt)
    ensures Classify(codec, attempt).Refused? <==>
      attempt.Ran? &&
      ((|attempt.stdout| == 0 && HasRefusalMarker(StderrText(codec, attempt.stderr))) ||
       (|attempt.stdout| > 0 && !(PngSignature <= attempt.stdout) &&
        HasRefusalMarker(StderrText(codec, attempt.stderr) + codec.utf8Ignore(attempt.stdout))))
  {
  }

  /** The exit status of the process is never consulted. */
  lemma ExitStatusIgnored(codec: Codec, stdout: Bytes, stderr: Bytes, status1: int, status2: int)
    ensures Classify(codec, Ran(stdout, stderr, status1)) == Classify(codec, Ran(stdout, stderr, status2))
  {
  }

  /** On non-PNG output, a marker in stderr alone is a refusal. */
  lemma NonPngRefusalFromStderr(codec: Codec, stdout: Bytes, stderr: Bytes, status: int)
    requires |stdout| > 0 && !(PngSignature <= stdout)
    requires HasRefusalMarker(StderrText(codec, stderr))
    ensures Classify(codec, Ran(stdout, stderr, status)) == Refused
  {
    var stderrText := StderrText(codec, stderr);
    if Contains(StatusMarker, stderrText) {
      ContainsInLeft(StatusMarker, stderrText, codec.utf8Ignore(stdout));
    } else {
      ContainsInLeft(FailedMarker, stderrText, codec.utf8Ignore(stdout));
    }
  }

  /** On non-PNG output, a marker in the decoded stdout alone is a refusal. */
  lemma NonPngRefusalFromStdout(codec: Codec, stdout: Bytes, stderr: Bytes, status: int)
    requires |stdout| > 0 && !(PngSignature <= stdout)
    requires HasRefusalMarker(codec.utf8Ignore(stdout))
    ensures Classify(codec, Ran(stdout, stderr, status)) == Refused
  {
    var stdoutText := codec.utf8Ignore(stdout);
    if Contains(StatusMarker, stdoutText) {
      ContainsInRight(StatusMarker, StderrText(codec, stderr), stdoutText);
    } else {
      ContainsInRight(FailedMarker, StderrText(codec, stderr), stdoutText);
    }
  }

  /** The first attempt that is not retryable decides the run, whose commands are that many copies. */
  lemma DecidedAt(codec: Codec, transport: Transport, deviceId: Option<string>, k: nat)
    requires k < MaxAttempts && RetriedBefore(codec, transport, k)
    requires !Classify(codec, transport(k)).Retry?
    ensures Capture(codec, transport, deviceId) ==
      Conclude(codec, Classify(codec, transport(k)), seq(k + 1, _ => ScreencapCommand(deviceId)))
  {
  }

  /** Empty stdout with a marker in stderr: the sensitive placeholder, with no further attempt. */
  lemma RefusalOnEmptyOutput(codec: Codec, transport: Transport, deviceId: Option<string>, k: nat)
    requires k < MaxAttempts && RetriedBefore(codec, transport, k)
    requires transport(k).Ran? && |transport(k).stdout| == 0
    requires HasRefusalMarker(StderrText(codec, transport(k).stderr))
    ensures Capture(codec, transport, deviceId) ==
      CaptureRun(Fallback(codec, true), seq(k + 1, _ => ScreencapCommand(deviceId)), [])
  {
  }

  /** Non-PNG stdout with a marker in stderr or stdout: the sensitive placeholder, with no further attempt. */
  lemma RefusalOnNonPngOutput(codec: Codec, transport: Transport, deviceId: Option<string>, k: nat)
    requires k < MaxAttempts && RetriedBefore(codec, transport, k)
    requires transport(k).Ran? && |transport(k).stdout| > 0 && !(PngSignature <= transport(k).stdout)
    requires HasRefusalMarker(StderrText(codec, transport(k).stderr) + codec.utf8Ignore(transport(k).stdout))
    ensures Capture(codec, transport, deviceId) ==
      CaptureRun(Fallback(codec, true), seq(k + 1, _ => ScreencapCommand(deviceId)), [])
  {
  }

  /** PNG output that decodes: its size, the encoding of exactly its bytes, not sensitive, nothing logged. */
  lemma SuccessPath(codec: Codec, transport: Transport, deviceId: Option<string>, k: nat, size: Size)
    requires k < MaxAttempts && RetriedBefore(codec, transport, k)
    requires transport(k).Ran? && PngSignature <= transport(k).stdout
    requires codec.decodeSize(transport(k).stdout) == Some(size)
    ensures var run := Capture(codec, transport, deviceId);
      run.shot == Screenshot(codec.base64(transport(k).stdout), size.width, size.height, false) &&
      |run.commands| == k + 1 && run.log == []
  {
  }

  /** PNG-prefixed output that fails to decode escapes without a retry: the reported non-sensitive placeholder. */
  lemma UndecodablePngNotRetried(codec: Codec, transport: Transport, deviceId: Option<string>, k: nat)
    requires k < MaxAttempts && RetriedBefore(codec, transport, k)
    requires transport(k).Ran? && PngSignature <= transport(k).stdout
    requires codec.decodeSize(transport(k).stdout) == None
    ensures var run := Capture(codec, transport, deviceId);
      run.shot == Fallback(codec, false) && |run.commands| == k + 1 &&
      run.log == [CaptureFailure(DecodeError)]
  {
  }

  /** All attempts retryable: the non-sensitive placeholder, reporting the error of the last attempt. */
  lemma ExhaustedAttempts(codec: Codec, transport: Transport, deviceId: Option<string>)
    requires RetriedBefore(codec, transport, MaxAttempts)
    ensures var run := Capture(codec, transport, deviceId);
      var lastError := Classify(codec, transport(MaxAttempts - 1)).error;
      run.shot == Fallback(codec, false) && |run.commands| == MaxAttempts &&
      run.log == [RetryWarning(lastError), CaptureFailure(lastError)]
  {
  }

  /**
   * One or two invocations, all of the same command; the second happens exactly
   * when the first attempt was retryable.
   */
  lemma AttemptBound(codec: Codec, transport: Transport, deviceId: Option<string>)
    ensures var run := Capture(codec, transport, deviceId);
      1 <= |run.commands| <= MaxAttempts &&
      (forall k :: 0 <= k < |run.commands| ==> run.commands[k] == ScreencapCommand(deviceId)) &&
      (|run.commands| == MaxAttempts <==> Classify(codec, transport(0)).Retry?)
  {
  }

  /** The flag is set exactly when the deciding attempt was a refusal, and then the result is the placeholder. */
  lemma SensitiveOnlyOnRefusal(codec: Codec, transport: Transport, deviceId: Option<string>)
    ensures var run := Capture(codec, transport, deviceId);
      |run.commands| >= 1 &&
      (run.shot.isSensitive <==> LastVerdict(codec, transport, run).Refused?) &&
      (run.shot.isSensitive ==> run.shot == Fallback(codec, true) && run.log == [])
  {
  }

  /**
   * A result is either the capture of the last attempt or a placeholder, and
   * every non-sensitive placeholder is reported in the log.
   */
  lemma CaptureOrReportedPlaceholder(codec: Codec, transport: Transport, deviceId: Option<string>)
    ensures var run := Capture(codec, transport, deviceId);
      |run.commands| >= 1 &&
      (LastVerdict(codec, transport, run).Captured? ==>
         run.shot == LastVerdict(codec, transport, run).shot && !run.shot.isSensitive && run.log == []) &&
      (!LastVerdict(codec, transport, run).Captured? ==> run.shot == Fallback(codec, run.shot.isSensitive)) &&
      (run.log != [] <==> !LastVerdict(codec, transport, run).Captured? && !run.shot.isSensitive)
  {
  }
}
