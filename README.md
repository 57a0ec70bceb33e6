# Android screen capture with retry and refusal detection

This project models the screen-capture procedure of `phone_agent/adb/screenshot.py`.
The procedure runs `adb [-s <device>] exec-out screencap -p` at most twice and sorts
each run's output into one of four cases:
- a PNG image, which becomes the result;
- a device-side refusal (the texts `Status: -1` or `Failed`), which gives a black
  1080 by 2400 placeholder flagged `is_sensitive`;
- a retryable failure;
- an error that escapes to the outer guard, which gives the unflagged placeholder.

The project has three modules:
- `Wrappers`: the `Option` type.
- `Text`: bytes, and Python's substring operator `in` on strings, as `Contains`.
- `AdbScreenshot`:
  - the `Screenshot` record and the command prefix `AdbPrefix`;
  - the PNG signature and its prefix test `PngSignature <= stdout` (for `bytes.startswith`);
  - the placeholder `Fallback` and the per-attempt classifier `Classify`;
  - a reference definition `Capture` of a whole run;
  - the imperative `GetScreenshot`, whose `for` loop keeps the list of issued commands and the
    last error, and is proved equal to `Capture`;
  - lemmas stating the procedure's rules about `Capture`.

Names for the collaborators:
- A *transport* gives the outcome of the k-th process invocation: it raised
  (launch failure or timeout), or it ran and produced stdout bytes, stderr bytes and an exit status.
- A *codec* holds the foreign functions: image-size decoding (`None` when the image library
  raises), base64, UTF-8 decoding with `errors="ignore"`, and the placeholder's PNG bytes.
- The two `print` diagnostics are returned as a log: `RetryWarning` for line 87, `CaptureFailure` for line 92.
  Because of this log, the fact that `last_error` is always set after the loop is visible.
  It makes the bare return at line 89 unreachable, so every exhausted run reports its last error.

Python exception objects are always truthy, so `if last_error:` is modelled as `lastError.Some?`.
The docstring of `get_screenshot` says a failed capture returns `is_sensitive=True`.
The code sets the flag only on the two marker branches. The model follows the code.

## Model

| member | source | states |
|---|---|---|
| `AdbScreenshot.AdbPrefix` | phone_agent/adb/screenshot.py:96-100 | the prefix starts with `adb`; it has three elements `adb -s <id>` exactly when the device id is present and non-empty (Python truthiness); otherwise it is `["adb"]` |
| `AdbScreenshot.CommandTargetsDevice` | phone_agent/adb/screenshot.py:37-45 | the issued command has six elements for a truthy id and four otherwise, starts with `adb`, ends with `exec-out screencap -p`, and selects a device with `-s` exactly when the id is truthy, and then selects that id |
| `AdbScreenshot.Fallback` | phone_agent/adb/screenshot.py:103-117 | the placeholder is 1080 by 2400, carries the given flag unchanged, and its data is the encoding of the black placeholder PNG |
| `AdbScreenshot.FallbacksDifferOnlyInFlag` | phone_agent/adb/screenshot.py:112-117 | the sensitive and non-sensitive placeholders are different records that agree everywhere except the flag |
| `AdbScreenshot.GetScreenshot` | phone_agent/adb/screenshot.py:22-93 | the loop issues one or two invocations, each of the screencap command, and its result, commands and log equal the reference run `Capture` |
| `AdbScreenshot.ScreencapCommand` | phone_agent/adb/screenshot.py:45 | the command of every invocation, the prefix followed by `exec-out screencap -p`; characterised by `CommandTargetsDevice` |
| `AdbScreenshot.StderrText` | phone_agent/adb/screenshot.py:53-56 | stderr as text: the empty string when stderr is empty, otherwise its UTF-8 decoding with undecodable bytes dropped; used by `RetryableOutcomes` and `RefusedOutcomes` |
| `AdbScreenshot.HasRefusalMarker` | phone_agent/adb/screenshot.py:59 | a text carries a refusal marker when `Status: -1` or `Failed` occurs in it; its meaning in positions follows from `Text.ContainsMeansOccurs` |
| `AdbScreenshot.Classify` | phone_agent/adb/screenshot.py:49-84 | an attempt is a capture exactly when stdout starts with the PNG signature and decodes, and an escape (always the decode error) exactly when it starts with the signature and does not decode; a capture is unflagged, encodes exactly stdout and has the decoded width and height; a retry records the process error for a raise, the empty-output error for empty stdout and the not-PNG error otherwise; a refusal never has PNG-prefixed stdout; together with `RefusedOutcomes` and `RetryableOutcomes`, these clauses determine every verdict; `ExitStatusIgnored` and `NonPngRefusalFromStderr`/`NonPngRefusalFromStdout` add consequences |
| `AdbScreenshot.Conclude` | phone_agent/adb/screenshot.py:60-93 | an attempt that ends the loop keeps the commands issued so far; a capture is returned as it is; only an escaped error is logged; anything but a capture yields the placeholder, flagged exactly on a refusal |
| `AdbScreenshot.Capture` | phone_agent/adb/screenshot.py:22-93 | reference run: one or two invocations, all of the screencap command, and a flagged result is the sensitive placeholder with nothing logged; the run lemmas below state the rest |
| `AdbScreenshot.RefusedOutcomes` | phone_agent/adb/screenshot.py:58-71 | an attempt is a refusal if and only if it ran and either stdout is empty with a marker in stderr, or stdout is non-empty, not PNG-prefixed, with a marker in stderr followed by decoded stdout |
| `Text.Contains` | phone_agent/adb/screenshot.py:59 | Python's `needle in text`; characterised by `Text.ContainsMeansOccurs` |
| `AdbScreenshot.RetryableOutcomes` | phone_agent/adb/screenshot.py:49-73 | an attempt is retried if and only if it raised, or gave empty stdout without a marker in stderr, or gave non-PNG stdout without a marker in stderr followed by decoded stdout |
| `AdbScreenshot.ExitStatusIgnored` | phone_agent/adb/screenshot.py:44-58 | the classification of an attempt does not depend on the process exit status |
| `AdbScreenshot.NonPngRefusalFromStderr` | phone_agent/adb/screenshot.py:64-71 | on non-empty non-PNG stdout, a marker in stderr alone makes the attempt a refusal |
| `AdbScreenshot.NonPngRefusalFromStdout` | phone_agent/adb/screenshot.py:64-71 | on non-empty non-PNG stdout, a marker in the decoded stdout alone makes the attempt a refusal |
| `AdbScreenshot.DecidedAt` | phone_agent/adb/screenshot.py:42-84 | when every earlier attempt was retryable, the first non-retryable attempt decides the run, after exactly that many invocations |
| `AdbScreenshot.RefusalOnEmptyOutput` | phone_agent/adb/screenshot.py:58-60 | empty stdout with a marker in stderr gives the sensitive placeholder, with no further invocation and nothing logged |
| `AdbScreenshot.RefusalOnNonPngOutput` | phone_agent/adb/screenshot.py:64-71 | non-empty non-PNG stdout with a marker in stderr plus decoded stdout gives the sensitive placeholder, with no further invocation |
| `AdbScreenshot.SuccessPath` | phone_agent/adb/screenshot.py:75-84 | PNG-prefixed stdout that decodes gives the decoded width and height, the base64 of exactly those bytes, and the flag false; no further invocation, nothing logged |
| `AdbScreenshot.UndecodablePngNotRetried` | phone_agent/adb/screenshot.py:75-93 | PNG-prefixed stdout that fails to decode is not retried; the outer guard reports it and gives the non-sensitive placeholder |
| `AdbScreenshot.ExhaustedAttempts` | phone_agent/adb/screenshot.py:86-93 | when both attempts are retryable, the result is the non-sensitive placeholder after two invocations, and the error of the second attempt is logged first as the retry warning and then by the outer guard |
| `AdbScreenshot.AttemptBound` | phone_agent/adb/screenshot.py:42-84 | a run makes one or two invocations, all of the same command; the second happens if and only if the first attempt was retryable |
| `AdbScreenshot.SensitiveOnlyOnRefusal` | phone_agent/adb/screenshot.py:58-93 | the result is flagged sensitive if and only if the deciding attempt was a refusal; a flagged result is the sensitive placeholder and nothing is logged |
| `AdbScreenshot.CaptureOrReportedPlaceholder` | phone_agent/adb/screenshot.py:79-93 | a result is either the last attempt's decoded capture, unflagged and unlogged, or a placeholder; something is logged if and only if the result is an unflagged placeholder |
| `Text.ContainsMeansOccurs` | phone_agent/adb/screenshot.py:59 | the substring test holds if and only if the marker occurs at some position of the text |
| `Text.ContainsInLeft` | phone_agent/adb/screenshot.py:65-70 | a marker in stderr text is still found after decoded stdout is appended to it |
| `Text.ContainsInRight` | phone_agent/adb/screenshot.py:65-70 | a marker in decoded stdout is still found after stderr text is put before it |

Capturing twice with the same transport and codec gives the same result. This holds
because `Capture` is a function, so no lemma states it.

## Left out

- `subprocess.run` (lines 44-48) is not modelled. The transport stands in for it, and `Raised` stands for every exception it throws, the timeout included. The `timeout` argument only reaches the process, so it does not appear.
- The image library and the codecs are not modelled: `Image.open`, `Image.new` and `save` (lines 75-76, 107-109), `base64.b64encode` and UTF-8 decoding (lines 56, 67, 77, 110). They are fields of the codec. Pixel contents are not modelled, and the placeholder is an opaque byte string.
- The `try`/`except Exception: pass` around the stdout decode (lines 66-69) is not modelled, because decoding with `errors="ignore"` is total here.
- Exceptions the model does not name are not modelled: a failure other than image decoding inside the loop body, and exceptions that are not `Exception` (for example `KeyboardInterrupt`), which Python would let escape the guard. Image decoding is the only escaping error in the model.
- The text of the two `print` lines is not modelled. The log keeps only which diagnostic was written and with which error.
- `result.stdout or b""` (line 53) is modelled as the captured stdout. With `capture_output=True` the captured stdout is never `None`.
