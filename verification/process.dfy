/**
 * Subprocess results and the ordered retry sequence the Facebook downloader
 * runs. `subprocess.run` is not modelled: the n-th process a download starts
 * (counting from 0) finishes with whatever the oracle says, either an exit
 * status with captured output or an exception raised while starting it.
 */
module Process {
  import opened PyStr

  /**
   * The yt-dlp and ffmpeg executables the bootstrap code locates (downloading
   * them when needed) before a download starts.
   */
  datatype Tools = Tools(ytdlp: string, ffmpeg: string) {
    /** `os.path.dirname(ffmpeg_path)`, handed to yt-dlp's `--ffmpeg-location`. */
    function FfmpegDir(): string {
      DirName(ffmpeg)
    }
  }

  datatype RunResult =
    | Exited(code: int, stdout: string, stderr: string)
    | Raised(message: string)

  /** The outcome of the n-th subprocess started by one download call. */
  type Oracle = nat -> RunResult

  predicate Succeeded(r: RunResult) {
    r.Exited? && r.code == 0
  }

  predicate FailedExit(r: RunResult) {
    r.Exited? && r.code != 0
  }

  /** The commands a download started, in order, and its boolean verdict. */
  datatype Trace = Trace(commands: seq<seq<string>>, ok: bool)

  /**
   * Try `stages` in order, the first one as subprocess number `from`: stop
   * with success at the first zero exit, stop with failure when starting a
   * process raises, and report failure after every stage exited non-zero.
   */
  function RunStages(stages: seq<seq<string>>, run: Oracle, from: nat): (t: Trace)
    ensures |t.commands| <= |stages|
    ensures t.commands == stages[..|t.commands|]
    ensures |stages| > 0 ==> |t.commands| > 0
    ensures forall k :: from <= k < from + |t.commands| - 1 ==> FailedExit(run(k))
    ensures t.ok <==> |t.commands| > 0 && Succeeded(run(from + |t.commands| - 1))
    ensures (!t.ok && |t.commands| > 0 && FailedExit(run(from + |t.commands| - 1)))
      ==> |t.commands| == |stages|
    decreases |stages|
  {
    if |stages| == 0 then Trace([], false)
    else
      match run(from)
      case Raised(_) => Trace([stages[0]], false)
      case Exited(code, _, _) =>
        if code == 0 then Trace([stages[0]], true)
        else
          var rest := RunStages(stages[1..], run, from + 1);
          Trace([stages[0]] + rest.commands, rest.ok)
  }

  /**
   * The sequence succeeds exactly when some stage exits zero and every stage
   * before it exited non-zero (none raised).
   */
  lemma {:induction false} RunStagesSucceedsIff(stages: seq<seq<string>>, run: Oracle, from: nat)
    ensures RunStages(stages, run, from).ok <==> FirstSuccessWithin(run, from, |stages|)
    decreases |stages|
  {
    if |stages| > 0 {
      RunStagesSucceedsIff(stages[1..], run, from + 1);
      FirstSuccessStep(run, from, |stages|);
    }
  }

  /** Some stage in `[from, from + n)` exits zero and every stage before it exited non-zero. */
  ghost predicate FirstSuccessWithin(run: Oracle, from: nat, n: nat) {
    exists k :: from <= k < from + n && Succeeded(run(k)) && forall m :: from <= m < k ==> FailedExit(run(m))
  }

  /** A first success is the first stage's, or comes after the first stage exits non-zero. */
  lemma FirstSuccessStep(run: Oracle, from: nat, n: nat)
    requires n > 0
    ensures FirstSuccessWithin(run, from, n) <==>
      Succeeded(run(from)) || (FailedExit(run(from)) && FirstSuccessWithin(run, from + 1, n - 1))
  {
    if FirstSuccessWithin(run, from, n) {
      var k :| from <= k < from + n && Succeeded(run(k)) && forall m :: from <= m < k ==> FailedExit(run(m));
      if k > from {
        assert FailedExit(run(from));
        assert from + 1 <= k < from + 1 + (n - 1) && forall m :: from + 1 <= m < k ==> FailedExit(run(m));
      }
    }
    if Succeeded(run(from)) {
      assert from <= from < from + n && forall m: nat :: from <= m < from ==> FailedExit(run(m));
    } else if FailedExit(run(from)) && FirstSuccessWithin(run, from + 1, n - 1) {
      var k :| from + 1 <= k < from + 1 + (n - 1) && Succeeded(run(k)) && forall m :: from + 1 <= m < k ==> FailedExit(run(m));
      assert forall m :: from <= m < k ==> FailedExit(run(m));
    }
  }

  /**
   * A stage that raises, after every earlier stage exited non-zero, ends the
   * sequence with failure; it is the last command started.
   */
  lemma {:induction false} RunStagesStopsOnRaise(stages: seq<seq<string>>, run: Oracle, from: nat, k: nat)
    requires from <= k < from + |stages| && run(k).Raised?
    requires forall m :: from <= m < k ==> FailedExit(run(m))
    ensures !RunStages(stages, run, from).ok
    ensures |RunStages(stages, run, from).commands| == k - from + 1
    decreases |stages|
  {
    if k > from {
      assert FailedExit(run(from));
      RunStagesStopsOnRaise(stages[1..], run, from + 1, k);
    }
  }

  /** When no stage raises, the sequence fails exactly when every stage exits non-zero. */
  lemma RunStagesFailsIffExhausted(stages: seq<seq<string>>, run: Oracle, from: nat)
    requires forall k :: from <= k < from + |stages| ==> run(k).Exited?
    ensures !RunStages(stages, run, from).ok <==> forall k :: from <= k < from + |stages| ==> FailedExit(run(k))
  {
    var t := RunStages(stages, run, from);
    if |stages| > 0 {
      assert run(from + |t.commands| - 1).Exited?;
    }
  }
}
