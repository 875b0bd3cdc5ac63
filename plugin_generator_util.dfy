/**
 * The plugin generator: builds the command line for the external
 * `sw-cli-tools.phar plugin:create` command from the generator settings, and
 * decides what installing a plugin does with the outcome of that command.
 *
 * Downloading the phar, running the process and touching the file system are
 * not performed: their results are parameters, and installing is described by
 * the ordered list of effects it performs.
 */
module PluginGeneratorUtil {
  import opened Wrappers
  import opened Strings

  /** The generator dialog's settings. */
  datatype PluginGeneratorSettings = PluginGeneratorSettings(
    interpreter: string,
    pluginName: string,
    namespace: string,
    addDummyFilter: bool,
    addDummyFrontendController: bool,
    addDummyBackendController: bool,
    addDummyModels: bool,
    addDummyCommand: bool,
    addDummyWidget: bool,
    addDummyApi: bool,
    legacyStructure: bool)

  const PharName := "sw-cli-tools.phar"
  const CreateCommand := "plugin:create"
  const LegacyFlag := "--legacy"
  const NamespacePrefix := "--namespace="

  /** Number of optional `--have*` flags. */
  const DummyFlagCount := 7

  /** The `i`-th optional flag, in the order they are added. */
  function FlagName(i: nat): string
    requires i < DummyFlagCount
  {
    match i
    case 0 => "--haveFilter"
    case 1 => "--haveFrontend"
    case 2 => "--haveBackend"
    case 3 => "--haveModels"
    case 4 => "--haveCommands"
    case 5 => "--haveWidget"
    case _ => "--haveApi"
  }

  /** The setting that switches the `i`-th optional flag on. */
  function Toggle(s: PluginGeneratorSettings, i: nat): bool
    requires i < DummyFlagCount
  {
    match i
    case 0 => s.addDummyFilter
    case 1 => s.addDummyFrontendController
    case 2 => s.addDummyBackendController
    case 3 => s.addDummyModels
    case 4 => s.addDummyCommand
    case 5 => s.addDummyWidget
    case _ => s.addDummyApi
  }

  /** How many of the first `k` flags are switched on. */
  function CountOn(s: PluginGeneratorSettings, k: nat): nat
    requires k <= DummyFlagCount
  {
    if k == 0 then 0 else CountOn(s, k - 1) + (if Toggle(s, k - 1) then 1 else 0)
  }

  function FlagIf(on: bool, flag: string): seq<string>
  {
    if on then [flag] else []
  }

  /** `head` followed by those of the first `k` flags that are switched on, in order. */
  function FlagsAfter(head: seq<string>, s: PluginGeneratorSettings, k: nat): seq<string>
    requires k <= DummyFlagCount
  {
    if k == 0 then head else FlagsAfter(head, s, k - 1) + FlagIf(Toggle(s, k - 1), FlagName(k - 1))
  }

  function LegacyArguments(s: PluginGeneratorSettings): seq<string>
  {
    if s.legacyStructure then [LegacyFlag, NamespacePrefix + s.namespace] else []
  }

  function CommandHead(s: PluginGeneratorSettings): seq<string>
  {
    [s.interpreter, PharName, CreateCommand]
  }

  /** The command line: interpreter, phar, sub-command, the chosen flags, the
      legacy pair, the plugin name. */
  function Command(s: PluginGeneratorSettings): (c: seq<string>)
  {
    FlagsAfter(CommandHead(s), s, DummyFlagCount)
    + LegacyArguments(s)
    + [s.pluginName]
  }

  // ---------------------------------------------------------------------------
  // Selection
  // ---------------------------------------------------------------------------

  lemma {:induction false} FlagsAfterLength(head: seq<string>, s: PluginGeneratorSettings, k: nat)
    requires k <= DummyFlagCount
    ensures |FlagsAfter(head, s, k)| == |head| + CountOn(s, k)
  {
    if k > 0 {
      FlagsAfterLength(head, s, k - 1);
    }
  }

  lemma {:induction false} FlagsAfterHead(head: seq<string>, s: PluginGeneratorSettings, k: nat)
    requires k <= DummyFlagCount
    ensures |head| <= |FlagsAfter(head, s, k)|
    ensures FlagsAfter(head, s, k)[..|head|] == head
  {
    if k > 0 {
      FlagsAfterHead(head, s, k - 1);
    }
  }

  /** Every element after the head is a flag that is switched on. */
  lemma {:induction false} FlagsAfterFrom(head: seq<string>, s: PluginGeneratorSettings, k: nat, p: nat)
    requires k <= DummyFlagCount
    requires |head| <= p < |FlagsAfter(head, s, k)|
    ensures exists i :: 0 <= i < k && Toggle(s, i) && FlagName(i) == FlagsAfter(head, s, k)[p]
  {
    FlagsAfterLength(head, s, k - 1);
    if p < |FlagsAfter(head, s, k - 1)| {
      FlagsAfterFrom(head, s, k - 1, p);
    } else {
      assert Toggle(s, k - 1) && FlagName(k - 1) == FlagsAfter(head, s, k)[p];
    }
  }

  /** A switched-on flag sits after the head and the switched-on flags before it. */
  lemma {:induction false} FlagsAfterAt(head: seq<string>, s: PluginGeneratorSettings, k: nat, i: nat)
    requires i < k <= DummyFlagCount && Toggle(s, i)
    ensures |head| + CountOn(s, i) < |FlagsAfter(head, s, k)|
    ensures FlagsAfter(head, s, k)[|head| + CountOn(s, i)] == FlagName(i)
  {
    FlagsAfterLength(head, s, k - 1);
    if i < k - 1 {
      FlagsAfterAt(head, s, k - 1, i);
    }
  }

  /** A flag appears after the head iff it is among the first `k` and switched on. */
  lemma FlagsAfterHas(head: seq<string>, s: PluginGeneratorSettings, k: nat, i: nat)
    requires k <= DummyFlagCount && i < DummyFlagCount
    ensures (exists p :: |head| <= p < |FlagsAfter(head, s, k)| && FlagsAfter(head, s, k)[p] == FlagName(i))
        <==> i < k && Toggle(s, i)
  {
    var flags := FlagsAfter(head, s, k);
    if i < k && Toggle(s, i) {
      FlagsAfterAt(head, s, k, i);
    }
    if exists p :: |head| <= p < |flags| && flags[p] == FlagName(i) {
      var p :| |head| <= p < |flags| && flags[p] == FlagName(i);
      FlagsAfterFrom(head, s, k, p);
      var j :| 0 <= j < k && Toggle(s, j) && FlagName(j) == flags[p];
      FlagNamesDistinct(i, j);
    }
  }

  /** Switched-on flags keep their relative order. */
  lemma {:induction false} CountOnMonotone(s: PluginGeneratorSettings, i: nat, j: nat)
    requires i < j <= DummyFlagCount && Toggle(s, i)
    ensures CountOn(s, i) < CountOn(s, j)
  {
    if j > i + 1 {
      CountOnMonotone(s, i, j - 1);
    }
  }

  // ---------------------------------------------------------------------------
  // generateCommand
  // ---------------------------------------------------------------------------

  /** The seven conditional additions, written out, select the switched-on flags in order. */
  lemma FlagChainIsFlagsAfter(h: seq<string>, s: PluginGeneratorSettings)
    ensures FlagsAfter(h, s, DummyFlagCount)
        == h + FlagIf(s.addDummyFilter, "--haveFilter") + FlagIf(s.addDummyFrontendController, "--haveFrontend")
             + FlagIf(s.addDummyBackendController, "--haveBackend") + FlagIf(s.addDummyModels, "--haveModels")
             + FlagIf(s.addDummyCommand, "--haveCommands") + FlagIf(s.addDummyWidget, "--haveWidget")
             + FlagIf(s.addDummyApi, "--haveApi")
  {
    assert FlagsAfter(h, s, 1) == h + FlagIf(s.addDummyFilter, "--haveFilter");
    assert FlagsAfter(h, s, 2) == FlagsAfter(h, s, 1) + FlagIf(s.addDummyFrontendController, "--haveFrontend");
    assert FlagsAfter(h, s, 3) == FlagsAfter(h, s, 2) + FlagIf(s.addDummyBackendController, "--haveBackend");
    assert FlagsAfter(h, s, 4) == FlagsAfter(h, s, 3) + FlagIf(s.addDummyModels, "--haveModels");
    assert FlagsAfter(h, s, 5) == FlagsAfter(h, s, 4) + FlagIf(s.addDummyCommand, "--haveCommands");
    assert FlagsAfter(h, s, 6) == FlagsAfter(h, s, 5) + FlagIf(s.addDummyWidget, "--haveWidget");
  }

  /** `if (on) commands.add(flag);` */
  method AddIf(commands: seq<string>, on: bool, flag: string) returns (r: seq<string>)
    ensures r == commands + FlagIf(on, flag)
  {
    r := commands;
    if on {
      r := r + [flag];
    }
  }

  /** The seven `if (setting) commands.add(flag);` statements, in order. */
  method AddDummyFlags(commands: seq<string>, s: PluginGeneratorSettings) returns (r: seq<string>)
    ensures r == FlagsAfter(commands, s, DummyFlagCount)
  {
    r := AddIf(commands, s.addDummyFilter, "--haveFilter");
    r := AddIf(r, s.addDummyFrontendController, "--haveFrontend");
    r := AddIf(r, s.addDummyBackendController, "--haveBackend");
    r := AddIf(r, s.addDummyModels, "--haveModels");
    r := AddIf(r, s.addDummyCommand, "--haveCommands");
    r := AddIf(r, s.addDummyWidget, "--haveWidget");
    r := AddIf(r, s.addDummyApi, "--haveApi");
    FlagChainIsFlagsAfter(commands, s);
  }

  /** `generateCommand`: a list the arguments are appended to one by one. */
  method GenerateCommand(s: PluginGeneratorSettings) returns (commands: seq<string>)
    ensures commands == Command(s)
  {
    commands := [];
    commands := commands + [s.interpreter];
    commands := commands + [PharName];
    commands := commands + [CreateCommand];
    AppendThree(s.interpreter, PharName, CreateCommand);
    commands := AddDummyFlags(commands, s);
    ghost var flagged := commands;
    if s.legacyStructure {
      commands := commands + [LegacyFlag];
      commands := commands + [NamespacePrefix + s.namespace];
      AppendTwo(flagged, LegacyFlag, NamespacePrefix + s.namespace);
    }
    commands := commands + [s.pluginName];
  }

  // ---------------------------------------------------------------------------
  // What the command line looks like
  // ---------------------------------------------------------------------------

  /** The optional flags are pairwise different. */
  lemma FlagNamesDistinct(i: nat, j: nat)
    requires i < DummyFlagCount && j < DummyFlagCount && FlagName(i) == FlagName(j)
    ensures i == j
  {
    assert |FlagName(i)| == |FlagName(j)| && FlagName(i)[6] == FlagName(j)[6];
  }

  lemma FlagNameShape(i: nat)
    requires i < DummyFlagCount
    ensures StartsWith(FlagName(i), "--have")
  {
  }

  /** The first `3 + k` elements of the command are the head and the switched-on flags. */
  lemma CommandFlagsPart(s: PluginGeneratorSettings)
    ensures var flags, k := FlagsAfter(CommandHead(s), s, DummyFlagCount), CountOn(s, DummyFlagCount);
      && |flags| == 3 + k
      && |Command(s)| == 4 + k + |LegacyArguments(s)|
      && (forall p :: 0 <= p < 3 + k ==> Command(s)[p] == flags[p])
      && (forall p :: 3 + k <= p < |Command(s)| - 1 ==> Command(s)[p] == LegacyArguments(s)[p - 3 - k])
  {
    FlagsAfterLength(CommandHead(s), s, DummyFlagCount);
  }

  /** Interpreter, phar and sub-command first, the plugin name last, the legacy pair
      (when selected) right after the flags, and the length that results. */
  lemma CommandLayout(s: PluginGeneratorSettings)
    ensures var c, k := Command(s), CountOn(s, DummyFlagCount);
      && |c| == 4 + k + (if s.legacyStructure then 2 else 0)
      && c[0] == s.interpreter && c[1] == PharName && c[2] == CreateCommand
      && c[|c| - 1] == s.pluginName
      && c[3 + k..|c| - 1] == LegacyArguments(s)
  {
    var flags := FlagsAfter(CommandHead(s), s, DummyFlagCount);
    CommandFlagsPart(s);
    FlagsAfterHead(CommandHead(s), s, DummyFlagCount);
    assert flags[..3][0] == flags[0] && flags[..3][1] == flags[1] && flags[..3][2] == flags[2];
  }

  /** Between the sub-command and the legacy pair stand exactly the switched-on flags:
      a flag is there iff its setting is on, and then at the place that keeps the fixed order. */
  lemma CommandFlagPresent(s: PluginGeneratorSettings, i: nat)
    requires i < DummyFlagCount
    ensures var c, k := Command(s), CountOn(s, DummyFlagCount);
      && 3 + k <= |c|
      && ((exists p :: 3 <= p < 3 + k && c[p] == FlagName(i)) <==> Toggle(s, i))
      && (Toggle(s, i) ==> 3 + CountOn(s, i) < 3 + k && c[3 + CountOn(s, i)] == FlagName(i))
  {
    var flags := FlagsAfter(CommandHead(s), s, DummyFlagCount);
    var c, k := Command(s), CountOn(s, DummyFlagCount);
    CommandFlagsPart(s);
    FlagsAfterHas(CommandHead(s), s, DummyFlagCount, i);
    if Toggle(s, i) {
      FlagsAfterAt(CommandHead(s), s, DummyFlagCount, i);
    }
    if exists p :: 3 <= p < 3 + k && c[p] == FlagName(i) {
      var p :| 3 <= p < 3 + k && c[p] == FlagName(i);
      assert flags[p] == FlagName(i);
    }
    if exists p :: 3 <= p < |flags| && flags[p] == FlagName(i) {
      var p :| 3 <= p < |flags| && flags[p] == FlagName(i);
      assert c[p] == FlagName(i);
    }
  }

  /** Two switched-on flags appear in the order of the settings. */
  lemma CommandFlagOrder(s: PluginGeneratorSettings, i: nat, j: nat)
    requires i < j < DummyFlagCount && Toggle(s, i) && Toggle(s, j)
    ensures var c := Command(s);
      && 3 + CountOn(s, i) < 3 + CountOn(s, j) < 3 + CountOn(s, DummyFlagCount) <= |c|
      && c[3 + CountOn(s, i)] == FlagName(i)
      && c[3 + CountOn(s, j)] == FlagName(j)
  {
    CountOnMonotone(s, i, j);
    CommandFlagPresent(s, i);
    CommandFlagPresent(s, j);
  }

  /** Everything between the sub-command and the plugin name is a `--have*` flag, except
      the legacy pair, which is there iff the legacy structure is selected. */
  lemma CommandLegacy(s: PluginGeneratorSettings)
    ensures var c, k := Command(s), CountOn(s, DummyFlagCount);
      && |c| == 4 + k + (if s.legacyStructure then 2 else 0)
      && (forall p :: 3 <= p < 3 + k ==> StartsWith(c[p], "--have"))
      && (s.legacyStructure <==> exists p :: 3 <= p < |c| - 1 && c[p] == LegacyFlag)
      && (s.legacyStructure ==> c[3 + k] == LegacyFlag && c[4 + k] == NamespacePrefix + s.namespace)
      && (!s.legacyStructure ==> forall p :: 3 <= p < |c| - 1 ==> !StartsWith(c[p], NamespacePrefix))
  {
    var flags := FlagsAfter(CommandHead(s), s, DummyFlagCount);
    var c, k := Command(s), CountOn(s, DummyFlagCount);
    CommandFlagsPart(s);
    forall p | 3 <= p < 3 + k
      ensures StartsWith(c[p], "--have") && c[p][2] == 'h'
    {
      FlagsAfterFrom(CommandHead(s), s, DummyFlagCount, p);
      var i :| 0 <= i < DummyFlagCount && Toggle(s, i) && FlagName(i) == flags[p];
      FlagNameShape(i);
    }
    if s.legacyStructure {
      assert c[3 + k] == LegacyFlag;
    }
  }

  // ---------------------------------------------------------------------------
  // installPlugin
  // ---------------------------------------------------------------------------

  /** The executable and its arguments, as handed to the process runner. */
  function SplitCommand(command: seq<string>): (r: (string, seq<string>))
    requires |command| > 0
    ensures [r.0] + r.1 == command
    ensures |r.1| == |command| - 1
  {
    (command[0], command[1..])
  }

  /** The generator's command is run as the interpreter with everything else as arguments. */
  lemma CommandSplit(s: PluginGeneratorSettings)
    ensures |Command(s)| >= 4
    ensures SplitCommand(Command(s)).0 == s.interpreter
    ensures SplitCommand(Command(s)).1[..2] == [PharName, CreateCommand]
    ensures SplitCommand(Command(s)).1[|Command(s)| - 2] == s.pluginName
  {
    CommandLayout(s);
  }

  const FailureWord := "exception"

  /** The process output is taken as a failure when it mentions an exception. */
  predicate IsFailureOutput(output: string)
  {
    Contains(ToLower(output), FailureWord)
  }

  /** ... in whatever letter case. */
  lemma FailureIgnoresCase(output: string)
    ensures IsFailureOutput(output) <==> exists i: nat :: i <= |output| && OccursAtIgnoringCase(output, FailureWord, i)
  {
    ContainsLowerIffIgnoringCase(output, FailureWord);
  }

  /** The output is what the process printed, piece by piece; one piece that mentions an
      exception makes the whole output a failure. */
  lemma FailingChunk(chunks: seq<string>, i: nat)
    requires i < |chunks| && IsFailureOutput(chunks[i])
    ensures IsFailureOutput(Concat(chunks))
  {
    var before, after := Concat(chunks[..i]), Concat(chunks[i + 1..]);
    ConcatSplit(chunks, i);
    ToLowerAppend(before + chunks[i], after);
    ToLowerAppend(before, chunks[i]);
    ContainsInContext(ToLower(before), ToLower(chunks[i]), ToLower(after), FailureWord);
  }

  const PluginsLocalPath := "/engine/Shopware/Plugins/Local/"

  /** Where the created plugin is moved to. */
  function TargetDirectory(basePath: string, namespace: string, pluginName: string): string
  {
    basePath + PluginsLocalPath + namespace + "/" + pluginName
  }

  /** Different plugins get different directories, as long as namespaces contain no `/`. */
  lemma TargetDirectoryInjective(basePath: string, ns1: string, name1: string, ns2: string, name2: string)
    requires '/' !in ns1 && '/' !in ns2
    requires TargetDirectory(basePath, ns1, name1) == TargetDirectory(basePath, ns2, name2)
    ensures ns1 == ns2 && name1 == name2
  {
    var prefix := basePath + PluginsLocalPath;
    var rest1, rest2 := ns1 + "/" + name1, ns2 + "/" + name2;
    assert TargetDirectory(basePath, ns1, name1) == prefix + rest1;
    assert TargetDirectory(basePath, ns2, name2) == prefix + rest2;
    assert rest1 == (prefix + rest1)[|prefix|..];
    assert rest2 == (prefix + rest2)[|prefix|..];
    SplitAtFirstSlash(ns1, name1, ns2, name2);
  }

  /** A name without `/` followed by `/` and a rest can be taken apart again. */
  lemma SplitAtFirstSlash(a: string, x: string, b: string, y: string)
    requires '/' !in a && '/' !in b && a + "/" + x == b + "/" + y
    ensures a == b && x == y
  {
    var t := a + "/" + x;
    assert t[|a|] == '/' && t[|b|] == '/';
    assert forall p :: 0 <= p < |a| ==> t[p] == a[p];
    assert forall p :: 0 <= p < |b| ==> t[p] == b[p];
    assert |a| == |b|;
    assert a == t[..|a|] && b == t[..|b|];
    assert x == t[|a| + 1..] && y == t[|b| + 1..];
  }

  const NoPharMessage := "No CLI-Tools phar found"
  const UnexpectedMessage := "The unexpected happens..."

  /** What installing does to the outside world, in order. */
  datatype Effect =
    | ShowError(content: string)
    | Execute(executable: string, workingDirectory: string, arguments: seq<string>)
    | DeleteFile(path: string)
    | CreateDirectory(path: string)
    | MoveDirectory(source: string, target: string)
    | NavigateTo(path: string)

  /** How running the command ended: its collected output, or the runner's failure. */
  datatype ProcessOutcome = Completed(output: string) | ExecutionFailed(message: string)

  /** The message shown for a failing output: the formatted exception, or a fallback. */
  function FailureMessage(output: string, formatExceptionMessage: string -> Option<string>): string
  {
    match formatExceptionMessage(output)
    case Some(message) => message
    case None => UnexpectedMessage
  }

  predicate ChangesFiles(e: Effect)
  {
    e.DeleteFile? || e.CreateDirectory? || e.MoveDirectory?
  }

  /** `installPlugin`. The phar lookup, the process, the output formatter, the writability
      check of the target and the lookup of the bootstrap file are parameters. */
  function InstallPlugin(
    basePath: string, baseDirPath: string, settings: PluginGeneratorSettings,
    cliPhar: Option<string>, outcome: ProcessOutcome,
    formatExceptionMessage: string -> Option<string>,
    targetWritable: bool, bootstrapFound: bool): (r: seq<Effect>)
  {
    if cliPhar.None? then
      [ShowError(NoPharMessage)]
    else
      var command := SplitCommand(Command(settings));
      var run := Execute(command.0, baseDirPath, command.1);
      match outcome
      case ExecutionFailed(message) => [run, ShowError(message)]
      case Completed(output) =>
        if IsFailureOutput(output) then
          [run, ShowError(FailureMessage(output, formatExceptionMessage))]
        else
          var newDir := TargetDirectory(basePath, settings.namespace, settings.pluginName);
          [run, DeleteFile(cliPhar.value)]
          + (if targetWritable then []
             else [CreateDirectory(newDir), MoveDirectory(basePath + "/" + settings.pluginName, newDir)]
                  + (if bootstrapFound then [NavigateTo(newDir + "/Bootstrap.php")] else []))
  }

  /** Installing reports an error iff the phar is missing, the process cannot be run or its
      output mentions an exception; an error is the last effect and comes before any change
      to the file system, which then never happens. */
  lemma InstallPluginErrors(
    basePath: string, baseDirPath: string, settings: PluginGeneratorSettings,
    cliPhar: Option<string>, outcome: ProcessOutcome,
    formatExceptionMessage: string -> Option<string>,
    targetWritable: bool, bootstrapFound: bool)
    ensures var r := InstallPlugin(basePath, baseDirPath, settings, cliPhar, outcome,
                                   formatExceptionMessage, targetWritable, bootstrapFound);
      var failed := cliPhar.None? || outcome.ExecutionFailed? || IsFailureOutput(outcome.output);
      && |r| > 0
      && ((exists e :: e in r && e.ShowError?) <==> failed)
      && (failed ==> r[|r| - 1].ShowError? && forall e :: e in r ==> !ChangesFiles(e))
      && (outcome.Completed? && IsFailureOutput(outcome.output) && cliPhar.Some? ==>
            r[|r| - 1] == ShowError(FailureMessage(outcome.output, formatExceptionMessage)))
  {
    var r := InstallPlugin(basePath, baseDirPath, settings, cliPhar, outcome,
                           formatExceptionMessage, targetWritable, bootstrapFound);
    if cliPhar.Some? && outcome.Completed? && !IsFailureOutput(outcome.output) {
      assert forall e :: e in r ==> e.Execute? || ChangesFiles(e) || e.NavigateTo?;
    } else {
      assert r[|r| - 1] in r;
    }
  }

  /** After a clean run the phar is deleted; unless the target directory is already writable,
      the plugin is then moved from the project root into a freshly created target directory,
      and its bootstrap file opened when found. */
  lemma InstallPluginSuccess(
    basePath: string, baseDirPath: string, settings: PluginGeneratorSettings,
    phar: string, output: string,
    formatExceptionMessage: string -> Option<string>,
    targetWritable: bool, bootstrapFound: bool)
    requires !IsFailureOutput(output)
    ensures var r := InstallPlugin(basePath, baseDirPath, settings, Some(phar), Completed(output),
                                   formatExceptionMessage, targetWritable, bootstrapFound);
      var newDir := TargetDirectory(basePath, settings.namespace, settings.pluginName);
      && |r| >= 2
      && r[0] == Execute(settings.interpreter, baseDirPath, Command(settings)[1..])
      && r[1] == DeleteFile(phar)
      && (targetWritable <==> |r| == 2)
      && (!targetWritable ==>
            && r[2] == CreateDirectory(newDir)
            && r[3] == MoveDirectory(basePath + "/" + settings.pluginName, newDir)
            && (bootstrapFound <==> NavigateTo(newDir + "/Bootstrap.php") in r))
  {
    CommandLayout(settings);
  }

  /** Whenever the command runs, it is the generated command, split into executable and arguments. */
  lemma InstallPluginRunsCommand(
    basePath: string, baseDirPath: string, settings: PluginGeneratorSettings,
    cliPhar: Option<string>, outcome: ProcessOutcome,
    formatExceptionMessage: string -> Option<string>,
    targetWritable: bool, bootstrapFound: bool)
    ensures var r := InstallPlugin(basePath, baseDirPath, settings, cliPhar, outcome,
                                   formatExceptionMessage, targetWritable, bootstrapFound);
      && (cliPhar.Some? <==> exists e :: e in r && e.Execute?)
      && forall e :: e in r && e.Execute? ==>
           [e.executable] + e.arguments == Command(settings) && e.workingDirectory == baseDirPath
  {
    var r := InstallPlugin(basePath, baseDirPath, settings, cliPhar, outcome,
                           formatExceptionMessage, targetWritable, bootstrapFound);
    if cliPhar.Some? {
      assert r[0].Execute?;
      assert forall e :: e in r[1..] ==> !e.Execute?;
      assert forall e :: e in r && e.Execute? ==> e == r[0];
    }
  }

  lemma AppendThree<T>(a: T, b: T, c: T)
    ensures [] + [a] + [b] + [c] == [a, b, c]
  {
  }

  lemma AppendTwo<T>(x: seq<T>, a: T, b: T)
    ensures x + [a] + [b] == x + [a, b]
  {
  }
}
