/** The `run_matugen` command: the argument list it passes to `matugen` and how
    the outcome of the process becomes the command's result. Starting the
    process is outside the model; its outcome is a parameter. */
module OsBackend {
  import opened Wrappers

  /** The argument list for `matugen`: the image, then the light-mode flag when
      asked for, then the generator type. */
  function MatugenArgs(imagePath: string, lightMode: bool, generatorType: string): (r: seq<string>)
    ensures |r| == (if lightMode then 6 else 4)
    ensures r[..2] == ["image", imagePath]
    ensures r[|r| - 2..] == ["--type", generatorType]
    ensures lightMode <==> |r| == 6 && r[2..4] == ["--mode", "light"]
  {
    var args := ["image", imagePath];
    var args := if lightMode then args + ["--mode", "light"] else args;
    args + ["--type", generatorType]
  }

  /** Reading an argument list of the shape `MatugenArgs` builds back into its
      three inputs. */
  function ReadMatugenArgs(args: seq<string>): (r: Option<(string, bool, string)>)
    ensures r.Some? ==> |args| == 4 || |args| == 6
  {
    if |args| == 4 && args[0] == "image" && args[2] == "--type" then Some((args[1], false, args[3]))
    else if |args| == 6 && args[0] == "image" && args[2..4] == ["--mode", "light"] && args[4] == "--type"
    then Some((args[1], true, args[5]))
    else None
  }

  /** The argument list determines the call: reading it back gives the image,
      the mode and the generator type that built it. */
  lemma MatugenArgsRoundTrip(imagePath: string, lightMode: bool, generatorType: string)
    ensures ReadMatugenArgs(MatugenArgs(imagePath, lightMode, generatorType)) == Some((imagePath, lightMode, generatorType))
  {
    var r := MatugenArgs(imagePath, lightMode, generatorType);
    assert r[0] == "image" && r[1] == imagePath;
    assert r[|r| - 2] == "--type" && r[|r| - 1] == generatorType;
  }

  /** What running `matugen` produced: it could not be started (with the
      operating system's message), or it exited, successfully or not, leaving
      its standard error. */
  datatype ProcessOutcome =
    | SpawnFailed(message: string)
    | Exited(success: bool, stderr: string)

  const SpawnFailedPrefix: string := "Failed to execute matugen: "
  const FailedPrefix: string := "Matugen failed: "

  /** The result of `run_matugen`. */
  function RunMatugen(outcome: ProcessOutcome): (r: Result<(), string>)
    ensures r.Ok? <==> outcome.Exited? && outcome.success
    ensures outcome.SpawnFailed? ==> r == Err(SpawnFailedPrefix + outcome.message)
    ensures outcome.Exited? && !outcome.success ==> r == Err(FailedPrefix + outcome.stderr)
  {
    match outcome
    case SpawnFailed(message) => Err("Failed to execute matugen: " + message)
    case Exited(success, stderr) => if success then Ok(()) else Err("Matugen failed: " + stderr)
  }

  /** The two kinds of failure never produce the same message, and each message
      gives back the text it was built from. */
  lemma FailuresDistinguishable(a: ProcessOutcome, b: ProcessOutcome)
    requires RunMatugen(a).Err? && RunMatugen(b).Err?
    ensures RunMatugen(a) == RunMatugen(b) <==> a == b
  {
    var ma := RunMatugen(a).error;
    var mb := RunMatugen(b).error;
    if a.SpawnFailed? && b.SpawnFailed? {
      if ma == mb {
        assert a.message == ma[|SpawnFailedPrefix|..] == b.message;
      }
    } else if a.Exited? && b.Exited? {
      if ma == mb {
        assert a.stderr == ma[|FailedPrefix|..] == b.stderr;
      }
    } else {
      assert ma[0] != mb[0];
    }
  }
}
