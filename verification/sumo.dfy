/**
 The integer and string layer of the SUMO traffic environments: the extra
 SUMO command line built from an insertion-ordered option dictionary, the
 per-environment GUI choice, and the layout of the traffic-signal observation
 vector against the bounds of its declared observation space. Simulator state
 (lane densities, queues, friction, mean speeds, the phase timer) enters as
 given values.
 */
module SumoEnv {
  import opened Wrappers
  import opened Text
  import opened Graphs

  // ---------------------------------------------------------------------
  // The SUMO command line
  // ---------------------------------------------------------------------

  /** An insertion-ordered dict of command-line options: `(key, value)` pairs. */
  type Options = seq<(string, string)>

  function Keys(opts: Options): (r: seq<string>)
    ensures |r| == |opts|
    ensures forall i | 0 <= i < |opts| :: r[i] == opts[i].0
  {
    seq(|opts|, i requires 0 <= i < |opts| => opts[i].0)
  }

  /** The options `_get_environment` collects: the configuration file always, and the
      output prefix (with `_` appended) and the two report files only for a non-empty prefix. */
  function CommandOptions(cfg: string, prefix: string): (r: Options)
    ensures |r| == if prefix == "" then 1 else 4
    ensures r[0] == ("--configuration-file", cfg)
    ensures Distinct(Keys(r))
    ensures prefix != "" ==> r[1] == ("--output-prefix", prefix + "_")
    ensures prefix != "" ==> r[2] == ("--statistic-output", "statistics.xml")
    ensures prefix != "" ==> r[3] == ("--collision-output", "collisions.xml")
  {
    var base := [("--configuration-file", cfg)];
    if prefix == "" then base
    else
      base + [("--output-prefix", prefix + "_"),
              ("--statistic-output", "statistics.xml"),
              ("--collision-output", "collisions.xml")]
  }

  /** Each option written as `key value`. */
  function Pieces(opts: Options): (r: seq<string>)
    ensures |r| == |opts|
    ensures forall i | 0 <= i < |opts| :: r[i] == opts[i].0 + " " + opts[i].1
  {
    seq(|opts|, i requires 0 <= i < |opts| => opts[i].0 + " " + opts[i].1)
  }

  /** `' '.join(key + " " + value for key, value in options.items())`. */
  function Render(opts: Options): string {
    Join(Pieces(opts), " ")
  }

  /** The keys and values in order, as separate tokens. */
  function Tokens(opts: Options): (r: seq<string>)
    ensures |r| == 2 * |opts|
  {
    if |opts| == 0 then [] else [opts[0].0, opts[0].1] + Tokens(opts[1..])
  }

  /** The `sumo_cmd` of `_get_environment`: the option tokens joined by single spaces. */
  function SumoCommand(cfg: string, prefix: string): (r: string)
    ensures r == Join(CommandTokens(cfg, prefix), " ")
  {
    CommandOptionTokens(cfg, prefix);
    Render(CommandOptions(cfg, prefix))
  }

  /** The `additional_sumo_cmd` of the single-environment factory. */
  function PlainSumoCommand(cfg: string): string {
    "--configuration-file " + cfg
  }

  lemma JoinCons(a: string, rest: seq<string>, sep: string)
    requires rest != []
    ensures Join([a] + rest, sep) == a + sep + Join(rest, sep)
  {
    assert ([a] + rest)[1..] == rest;
  }

  /** Writing each option as `key value` and joining with spaces is joining all the tokens
      with spaces. */
  lemma {:induction false} RenderTokens(opts: Options)
    ensures Render(opts) == Join(Tokens(opts), " ")
  {
    if |opts| > 0 {
      var k, v := opts[0].0, opts[0].1;
      var t := Tokens(opts[1..]);
      assert Tokens(opts) == [k] + ([v] + t);
      if |opts| == 1 {
        assert Pieces(opts) == [k + " " + v];
        assert t == [];
        JoinCons(k, [v], " ");
      } else {
        RenderTokens(opts[1..]);
        assert Pieces(opts) == [k + " " + v] + Pieces(opts[1..]);
        JoinCons(k + " " + v, Pieces(opts[1..]), " ");
        JoinCons(v, t, " ");
        JoinCons(k, [v] + t, " ");
      }
    }
  }

  /** The command's tokens: the configuration file option, followed by the three output
      options exactly when the prefix is non-empty. */
  function CommandTokens(cfg: string, prefix: string): seq<string> {
    ["--configuration-file", cfg] + (if prefix == "" then [] else OutputTokens(prefix))
  }

  function OutputTokens(prefix: string): seq<string> {
    ["--output-prefix", prefix + "_", "--statistic-output", "statistics.xml",
     "--collision-output", "collisions.xml"]
  }

  /** Printable ASCII without the space character. */
  predicate Visible(s: string) {
    forall k | 0 <= k < |s| :: '!' <= s[k] <= '~'
  }

  lemma VisibleNoSpace(s: string)
    requires Visible(s)
    ensures NoSpace(s)
  {
  }

  /** The option names and report file names are words. */
  lemma FixedTokensAreWords()
    ensures NoSpace("--configuration-file") && NoSpace("--output-prefix")
    ensures NoSpace("--statistic-output") && NoSpace("statistics.xml")
    ensures NoSpace("--collision-output") && NoSpace("collisions.xml")
  {
    OptionNamesVisible();
    ReportFilesVisible();
  }

  lemma OptionNamesVisible()
    ensures NoSpace("--configuration-file") && NoSpace("--output-prefix")
  {
    VisibleNoSpace("--configuration-file");
    VisibleNoSpace("--output-prefix");
  }

  lemma ReportFilesVisible()
    ensures NoSpace("--statistic-output") && NoSpace("statistics.xml")
    ensures NoSpace("--collision-output") && NoSpace("collisions.xml")
  {
    VisibleNoSpace("--statistic-output");
    VisibleNoSpace("statistics.xml");
    VisibleNoSpace("--collision-output");
    VisibleNoSpace("collisions.xml");
  }

  /** Non-empty words without whitespace, the tokens a whitespace split gives back. */
  predicate AllWords(ws: seq<string>) {
    forall i | 0 <= i < |ws| :: ws[i] != "" && NoSpace(ws[i])
  }

  lemma AllWordsAppend(a: seq<string>, b: seq<string>)
    requires AllWords(a) && AllWords(b)
    ensures AllWords(a + b)
  {
    forall i | |a| <= i < |a + b| ensures (a + b)[i] == b[i - |a|] {
    }
  }

  lemma OutputTokensAreWords(prefix: string)
    requires NoSpace(prefix)
    ensures AllWords(OutputTokens(prefix))
  {
    var ts := OutputTokens(prefix);
    FixedTokensAreWords();
    assert NoSpace(prefix + "_") by {
      forall k | 0 <= k < |prefix + "_"| ensures !IsSpace((prefix + "_")[k]) {
        if k < |prefix| {
          assert (prefix + "_")[k] == prefix[k];
        }
      }
    }
    assert ts[1] == prefix + "_";
  }

  /** Rendering the collected options gives their tokens joined by single spaces. */
  lemma CommandOptionTokens(cfg: string, prefix: string)
    ensures Render(CommandOptions(cfg, prefix)) == Join(CommandTokens(cfg, prefix), " ")
  {
    var opts := CommandOptions(cfg, prefix);
    RenderTokens(opts);
    if prefix == "" {
      assert Tokens(opts) == ["--configuration-file", cfg] + Tokens([]);
    } else {
      var o1 := opts[1..];
      var o2 := o1[1..];
      var o3 := o2[1..];
      assert o3[1..] == [];
      assert Tokens(o3) == ["--collision-output", "collisions.xml"];
      assert Tokens(o2) == ["--statistic-output", "statistics.xml"] + Tokens(o3);
      assert Tokens(o1) == ["--output-prefix", prefix + "_"] + Tokens(o2);
      assert Tokens(opts) == ["--configuration-file", cfg] + Tokens(o1);
      assert Tokens(o1) == OutputTokens(prefix);
    }
  }

  /** Without an output prefix the command is exactly the single-environment factory's. */
  lemma NoPrefixIsPlainCommand(cfg: string)
    ensures SumoCommand(cfg, "") == PlainSumoCommand(cfg)
  {
    JoinCons("--configuration-file", [cfg], " ");
  }

  /** When the file name and the prefix have no whitespace, splitting the command on
      whitespace gives back the option tokens, as SUMO's command-line parser reads them. */
  lemma SumoCommandSplits(cfg: string, prefix: string)
    requires cfg != "" && NoSpace(cfg) && NoSpace(prefix)
    ensures SplitWords(SumoCommand(cfg, prefix)) == CommandTokens(cfg, prefix)
  {
    var head := ["--configuration-file", cfg];
    var tail := if prefix == "" then [] else OutputTokens(prefix);
    FixedTokensAreWords();
    assert AllWords(head);
    if prefix != "" {
      OutputTokensAreWords(prefix);
    }
    AllWordsAppend(head, tail);
    JoinSplitWords(head + tail);
  }

  // ---------------------------------------------------------------------
  // The three environments of the generator
  // ---------------------------------------------------------------------

  /** The settings `_get_environment` passes to the simulator wrapper. */
  datatype EnvConfig = EnvConfig(
    useGui: bool,
    sumoWarnings: bool,
    outCsvName: Option<string>,
    numSeconds: int,
    deltaTime: nat,
    yellowTime: nat,
    minGreen: nat,
    additionalSumoCmd: string)

  /** The generator's fixed files and run length. */
  datatype Generator = Generator(sumocfgFile: string, duration: int, learningDataCsvName: string)

  function GetEnvironment(sumocfgFile: string, useGui: bool, numSeconds: int, outCsvName: Option<string>,
                          outputPrefix: string): (r: EnvConfig)
    ensures r.useGui == useGui && r.sumoWarnings == useGui
    ensures r.deltaTime == 5 && r.yellowTime == 2 && r.minGreen == 5
    ensures r.numSeconds == numSeconds && r.outCsvName == outCsvName
  {
    EnvConfig(useGui, useGui, outCsvName, numSeconds, 5, 2, 5, SumoCommand(sumocfgFile, outputPrefix))
  }

  function TrainingEnv(gen: Generator): EnvConfig {
    GetEnvironment(gen.sumocfgFile, false, gen.duration, Some(gen.learningDataCsvName), "")
  }

  function GenerationEnv(gen: Generator, outputPrefix: string): EnvConfig {
    GetEnvironment(gen.sumocfgFile, false, gen.duration, None, outputPrefix)
  }

  function DemonstrationEnv(gen: Generator): EnvConfig {
    GetEnvironment(gen.sumocfgFile, true, gen.duration, None, "")
  }

  /** Only the demonstration environment shows the GUI (and the simulator's warnings); only
      the training environment writes the learning CSV; only the generation environment
      adds output options, and then exactly when its prefix is non-empty. */
  lemma EnvironmentChoices(gen: Generator, outputPrefix: string)
    ensures !TrainingEnv(gen).useGui && !GenerationEnv(gen, outputPrefix).useGui && DemonstrationEnv(gen).useGui
    ensures DemonstrationEnv(gen).sumoWarnings && !TrainingEnv(gen).sumoWarnings
    ensures TrainingEnv(gen).outCsvName == Some(gen.learningDataCsvName)
    ensures GenerationEnv(gen, outputPrefix).outCsvName.None? && DemonstrationEnv(gen).outCsvName.None?
    ensures TrainingEnv(gen).additionalSumoCmd == PlainSumoCommand(gen.sumocfgFile)
    ensures DemonstrationEnv(gen).additionalSumoCmd == PlainSumoCommand(gen.sumocfgFile)
    ensures GenerationEnv(gen, outputPrefix).additionalSumoCmd == PlainSumoCommand(gen.sumocfgFile)
      <==> outputPrefix == ""
  {
    NoPrefixIsPlainCommand(gen.sumocfgFile);
    if outputPrefix != "" {
      PrefixedCommandLonger(gen.sumocfgFile, outputPrefix);
    }
  }

  /** A prefixed command is longer than the plain one, so the two never coincide. */
  lemma PrefixedCommandLonger(cfg: string, prefix: string)
    requires prefix != ""
    ensures |SumoCommand(cfg, prefix)| > |PlainSumoCommand(cfg)|
  {
    var ts := CommandTokens(cfg, prefix);
    JoinCons(ts[0], ts[1..], " ");
    JoinCons(ts[1], ts[2..], " ");
    assert [ts[0]] + ts[1..] == ts && [ts[1]] + ts[2..] == ts[1..];
  }

  // ---------------------------------------------------------------------
  // The observation vector and its space
  // ---------------------------------------------------------------------

  /** The traffic-signal state the observation reads. */
  datatype TrafficSignal = TrafficSignal(
    numGreenPhases: nat,
    greenPhase: int,
    timeSinceLastPhaseChange: real,
    minGreen: int,
    yellowTime: int,
    lanes: seq<string>,
    density: seq<real>,
    queue: seq<real>)

  /** `[1 if green_phase == i else 0 for i in range(num_green_phases)]`. */
  function PhaseOneHot(n: nat, phase: int): (r: seq<real>)
    ensures |r| == n
    ensures forall i | 0 <= i < n :: r[i] == 1.0 <==> i == phase
    ensures forall i | 0 <= i < n :: r[i] == 0.0 || r[i] == 1.0
  {
    seq(n, i requires 0 <= i < n => if phase == i then 1.0 else 0.0)
  }

  function Sum(s: seq<real>): real {
    if |s| == 0 then 0.0 else Sum(s[..|s| - 1]) + s[|s| - 1]
  }

  /** The encoding has a single 1 when the green phase is one of the `n` phases, and none
      otherwise. */
  lemma {:induction false} OneHotSum(n: nat, phase: int)
    ensures Sum(PhaseOneHot(n, phase)) == if 0 <= phase < n then 1.0 else 0.0
  {
    if n > 0 {
      OneHotSum(n - 1, phase);
      assert PhaseOneHot(n, phase)[..n - 1] == PhaseOneHot(n - 1, phase);
    }
  }

  /** `0 if time_since_last_phase_change < min_green + yellow_time else 1`. */
  function MinGreenFlag(ts: TrafficSignal): (r: real)
    ensures r == 0.0 <==> ts.timeSinceLastPhaseChange < (ts.minGreen + ts.yellowTime) as real
    ensures r == 0.0 || r == 1.0
  {
    if ts.timeSinceLastPhaseChange < (ts.minGreen + ts.yellowTime) as real then 0.0 else 1.0
  }

  /** The flag never drops back to 0 as the time since the last phase change grows. */
  lemma MinGreenFlagMonotone(ts: TrafficSignal, later: real)
    requires ts.timeSinceLastPhaseChange <= later
    ensures MinGreenFlag(ts) <= MinGreenFlag(ts.(timeSinceLastPhaseChange := later))
  {
  }

  /** The observation of `env/environment.py`: the phase one-hot block, the min-green flag,
      then the densities and the queues, each at its fixed offset. */
  function Observation(ts: TrafficSignal): (r: seq<real>)
    ensures |r| == ts.numGreenPhases + 1 + |ts.density| + |ts.queue|
    ensures forall i | 0 <= i < ts.numGreenPhases :: r[i] == 1.0 <==> i == ts.greenPhase
    ensures r[ts.numGreenPhases] == 0.0
      <==> ts.timeSinceLastPhaseChange < (ts.minGreen + ts.yellowTime) as real
    ensures forall i | 0 <= i < |ts.density| :: r[ts.numGreenPhases + 1 + i] == ts.density[i]
    ensures forall i | 0 <= i < |ts.queue| ::
      r[ts.numGreenPhases + 1 + |ts.density| + i] == ts.queue[i]
  {
    PhaseOneHot(ts.numGreenPhases, ts.greenPhase) + [MinGreenFlag(ts)] + ts.density + ts.queue
  }

  /** The observation of the generator's environments: the base observation followed by
      each lane's friction and then each lane's last-step mean speed, read from the simulator. */
  function FrictionObservation(ts: TrafficSignal, friction: string -> real, meanSpeed: string -> real): (r: seq<real>)
    ensures |r| == |Observation(ts)| + 2 * |ts.lanes|
    ensures r[..|Observation(ts)|] == Observation(ts)
    ensures forall i | 0 <= i < |ts.lanes| ::
      r[ts.numGreenPhases + 1 + |ts.density| + |ts.queue| + i] == friction(ts.lanes[i])
      && r[ts.numGreenPhases + 1 + |ts.density| + |ts.queue| + |ts.lanes| + i] == meanSpeed(ts.lanes[i])
  {
    var base := Observation(ts);
    var f := PerLane(ts.lanes, friction);
    var m := PerLane(ts.lanes, meanSpeed);
    assert forall i | 0 <= i < |ts.lanes| :: (base + f + m)[|base| + i] == f[i];
    assert forall i | 0 <= i < |ts.lanes| :: (base + f + m)[|base| + |f| + i] == m[i];
    base + f + m
  }

  /** One simulator reading per lane, in lane order. */
  function PerLane(lanes: seq<string>, read: string -> real): (r: seq<real>)
    ensures |r| == |lanes|
    ensures forall i | 0 <= i < |lanes| :: r[i] == read(lanes[i])
  {
    seq(|lanes|, i requires 0 <= i < |lanes| => read(lanes[i]))
  }

  /** A `spaces.Box` with its lower and upper bound vectors. */
  datatype Box = Box(low: seq<real>, high: seq<real>)

  function Constant(n: nat, x: real): (r: seq<real>)
    ensures |r| == n && forall i | 0 <= i < n :: r[i] == x
  {
    seq(n, i requires 0 <= i < n => x)
  }

  /** `Box(zeros(n + 1 + blocks * len(lanes)), ones(...))`; `blocks` is 2 in
      `env/environment.py` and 4 in the generator. */
  function ObservationSpace(ts: TrafficSignal, blocks: nat): (r: Box)
    ensures |r.low| == |r.high| == ts.numGreenPhases + 1 + blocks * |ts.lanes|
    ensures forall i | 0 <= i < |r.low| :: r.low[i] == 0.0 && r.high[i] == 1.0
  {
    var n := ts.numGreenPhases + 1 + blocks * |ts.lanes|;
    Box(Constant(n, 0.0), Constant(n, 1.0))
  }

  /** The observation fits its two-block space exactly when there are as many densities and
      queues together as two per lane; the phase and flag entries always lie within the bounds. */
  lemma ObservationMatchesSpace(ts: TrafficSignal)
    ensures |Observation(ts)| == |ObservationSpace(ts, 2).low|
      <==> |ts.density| + |ts.queue| == 2 * |ts.lanes|
    ensures forall i | 0 <= i <= ts.numGreenPhases ::
      i < |ObservationSpace(ts, 2).low| && ObservationSpace(ts, 2).low[i] <= Observation(ts)[i] <= ObservationSpace(ts, 2).high[i]
  {
    var obs := Observation(ts);
    var oneHot := PhaseOneHot(ts.numGreenPhases, ts.greenPhase);
    forall i | 0 <= i <= ts.numGreenPhases ensures 0.0 <= obs[i] <= 1.0 {
      if i < ts.numGreenPhases {
        assert obs[i] == oneHot[i];
      } else {
        assert obs[i] == MinGreenFlag(ts);
      }
    }
  }

  /** The same for the generator's four-block observation: friction and mean speed always
      bring one entry per lane, so only the densities and queues can break the match. */
  lemma FrictionObservationMatchesSpace(ts: TrafficSignal, friction: string -> real, meanSpeed: string -> real)
    ensures |FrictionObservation(ts, friction, meanSpeed)| == |ObservationSpace(ts, 4).low|
      <==> |ts.density| + |ts.queue| == 2 * |ts.lanes|
  {
    assert |ObservationSpace(ts, 4).low| == ts.numGreenPhases + 1 + 4 * |ts.lanes|;
    assert |FrictionObservation(ts, friction, meanSpeed)|
      == ts.numGreenPhases + 1 + |ts.density| + |ts.queue| + 2 * |ts.lanes|;
  }
}
