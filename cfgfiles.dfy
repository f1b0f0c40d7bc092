/** Which configuration files `config save`, `config load` and `config reload`
    use, and which `sonic-cfggen` command each instance gets. A device has one
    file for the host (instance -1, no namespace) and, on a multi-ASIC device,
    one more per ASIC (instance i, namespace `asic<i>`). The user may name the
    files as one comma-separated argument, which must then name exactly that
    many. The commands are returned as text; running them, and whether a file
    exists, lie outside the model (`isFile` stands for `os.path.isfile`). */
module ConfigFiles {
  import opened Common

  const CfggenPath: string := "/usr/local/bin/sonic-cfggen"
  const DefaultConfigDbFile: string := "/etc/sonic/config_db.json"
  const NamespacePrefix: string := "asic"
  const InitConfigFile: string := "/etc/sonic/init_cfg.json"
  const FileSeparator: char := ','

  datatype FileError = WrongFileCount(expected: nat)  // "Input {} config file(s) separated by comma ..."

  /** `num_cfg_file`: one, plus one per ASIC on a multi-ASIC device. */
  function NumConfigFiles(numAsic: nat, multiNpu: bool): (n: nat)
    ensures n >= 1
    ensures multiNpu ==> n == numAsic + 1
    ensures !multiNpu ==> n == 1
  {
    1 + (if multiNpu then numAsic else 0)
  }

  /** The namespace of instance `inst`: none for the host. */
  function Namespace(inst: int): (r: Option<string>)
    requires inst >= -1
    ensures r.None? <==> inst == -1
    ensures r.Some? ==> StartsWith(r.value, NamespacePrefix)
  {
    if inst == -1 then None else Some(NamespacePrefix + IntToString(inst))
  }

  /** The file an instance uses when the user names none. */
  function DefaultFile(inst: int): string
    requires inst >= -1
  {
    if inst == -1 then DefaultConfigDbFile else "/etc/sonic/config_db" + IntToString(inst) + ".json"
  }

  /** The user's list, split at commas, when it names the right number of
      files; none when the user names no file. */
  function UserFiles(filename: Option<string>, n: nat): (r: Result<seq<string>, FileError>)
    ensures filename.None? ==> r == Ok([])
    ensures filename.Some? ==> (r.Ok? <==> |Split(filename.value, FileSeparator)| == n)
    ensures r.Err? ==> r == Err(WrongFileCount(n))
    ensures filename.Some? && r.Ok? ==> |r.value| == n && Join(r.value, FileSeparator) == filename.value
  {
    match filename
    case None => Ok([])
    case Some(f) =>
      var files := Split(f, FileSeparator);
      if |files| != n then Err(WrongFileCount(n))
      else
        JoinSplit(f, FileSeparator);
        Ok(files)
  }

  /** The file of instance `inst`: the user's `cfg_files[inst + 1]` when the
      list is non-empty, the default file otherwise. */
  function FileFor(cfgFiles: seq<string>, inst: int): (file: string)
    requires inst >= -1
    requires cfgFiles != [] ==> inst + 1 < |cfgFiles|
    ensures cfgFiles == [] ==> file == DefaultFile(inst)
    ensures cfgFiles != [] ==> file == cfgFiles[inst + 1]
  {
    if cfgFiles != [] then cfgFiles[inst + 1] else DefaultFile(inst)
  }

  /** The file of every instance, host first: entry `i` is instance `i - 1`. */
  function InstanceFiles(cfgFiles: seq<string>, n: nat): (files: seq<string>)
    requires cfgFiles != [] ==> |cfgFiles| == n
    ensures |files| == n
    ensures cfgFiles != [] ==> files == cfgFiles
    ensures forall i :: 0 <= i < n ==> files[i] == FileFor(cfgFiles, i - 1)
  {
    var files := seq(n, i requires 0 <= i < n => FileFor(cfgFiles, i - 1));
    assert cfgFiles != [] ==> files == cfgFiles;
    files
  }

  /** Distinct instances get distinct namespaces and distinct default files. */
  lemma InstancesDistinct(i: int, j: int)
    requires i >= -1 && j >= -1 && i != j
    ensures Namespace(i) != Namespace(j)
    ensures DefaultFile(i) != DefaultFile(j)
  {
    if i >= 0 && j >= 0 {
      NatToStringInjective(i, j);
      var a, b := NamespacePrefix + IntToString(i), NamespacePrefix + IntToString(j);
      assert a[|NamespacePrefix|..] == IntToString(i);
      assert b[|NamespacePrefix|..] == IntToString(j);
      var prefix := "/etc/sonic/config_db";
      var c, d := prefix + IntToString(i) + ".json", prefix + IntToString(j) + ".json";
      assert c[|prefix|..|c| - 5] == IntToString(i);
      assert d[|prefix|..|d| - 5] == IntToString(j);
    } else if i == -1 {
      DefaultFileShape(j);
    } else {
      DefaultFileShape(i);
    }
  }

  /** The host file is never the file of an ASIC: the latter has a digit
      before `.json`. */
  lemma DefaultFileShape(i: int)
    requires i >= 0
    ensures DefaultFile(i) != DefaultConfigDbFile
  {
    var prefix := "/etc/sonic/config_db";
    var a := prefix + IntToString(i) + ".json";
    assert a[|prefix|] == IntToString(i)[0];
    assert DefaultConfigDbFile[|prefix|] == '.';
  }

  /** `sonic-cfggen ... -d --print-data > file`, the command `save` runs. */
  function SaveCommand(inst: int, file: string): string
    requires inst >= -1
  {
    match Namespace(inst)
    case None => CfggenPath + " -d --print-data > " + file
    case Some(ns) => CfggenPath + " -n " + ns + " -d --print-data > " + file
  }

  /** `sonic-cfggen ... -j file --write-to-db`, the command `load` runs. */
  function LoadCommand(inst: int, file: string): string
    requires inst >= -1
  {
    match Namespace(inst)
    case None => CfggenPath + " -j " + file + " --write-to-db"
    case Some(ns) => CfggenPath + " -n " + ns + " -j " + file + " --write-to-db"
  }

  /** The command `reload` runs: the initial configuration file, when it
      exists, is loaded first; the namespace option comes after the files. */
  function ReloadCommand(inst: int, file: string, initExists: bool): string
    requires inst >= -1
  {
    var files := if initExists then " -j " + InitConfigFile + " -j " + file else " -j " + file;
    match Namespace(inst)
    case None => CfggenPath + files + " --write-to-db"
    case Some(ns) => CfggenPath + files + " -n " + ns + " --write-to-db"
  }

  /** The save commands of the first `k` instance files, host first. */
  function SaveCommands(files: seq<string>, k: nat): (r: seq<string>)
    requires k <= |files|
    ensures |r| == k
  {
    if k == 0 then [] else SaveCommands(files, k - 1) + [SaveCommand(k - 2, files[k - 1])]
  }

  /** Entry `i` of the save commands is the command of instance `i - 1`. */
  lemma {:induction false} SaveCommandsAt(files: seq<string>, k: nat, i: nat)
    requires i < k <= |files|
    ensures SaveCommands(files, k)[i] == SaveCommand(i - 1, files[i])
  {
    var last := SaveCommand(k - 2, files[k - 1]);
    assert SaveCommands(files, k) == SaveCommands(files, k - 1) + [last];
    if i < k - 1 {
      SaveCommandsAt(files, k - 1, i);
    } else {
      assert i - 1 == k - 2 && files[i] == files[k - 1];
    }
  }

  /** Runs the save command of every instance file in turn. */
  method SaveAll(files: seq<string>) returns (commands: seq<string>)
    ensures commands == SaveCommands(files, |files|)
  {
    commands := [];
    for k := 0 to |files|
      invariant commands == SaveCommands(files, k)
    {
      commands := commands + [SaveCommand(k - 1, files[k])];
    }
  }

  /** `config save [filename]`: one command per instance, in instance order. */
  method Save(filename: Option<string>, numAsic: nat, multiNpu: bool) returns (r: Result<seq<string>, FileError>)
    ensures r.Err? <==> UserFiles(filename, NumConfigFiles(numAsic, multiNpu)).Err?
    ensures r.Ok? ==>
      var cfgFiles := UserFiles(filename, NumConfigFiles(numAsic, multiNpu)).value;
      var files := InstanceFiles(cfgFiles, NumConfigFiles(numAsic, multiNpu));
      && |r.value| == NumConfigFiles(numAsic, multiNpu)
      && forall i :: 0 <= i < |r.value| ==> r.value[i] == SaveCommand(i - 1, files[i])
  {
    var n := NumConfigFiles(numAsic, multiNpu);
    var user := UserFiles(filename, n);
    if user.Err? {
      return Err(user.error);
    }
    var cfgFiles := user.value;
    var files := InstanceFiles(cfgFiles, n);
    var commands := SaveAll(files);
    forall i | 0 <= i < n
      ensures commands[i] == SaveCommand(i - 1, files[i])
    {
      SaveCommandsAt(files, n, i);
    }
    return Ok(commands);
  }

  /** What `load` and `reload` did: the commands run, and the first file found
      missing (only `load` stops there). */
  datatype LoadOutcome = LoadOutcome(commands: seq<string>, missing: Option<string>)

  /** The load commands of the first `k` instance files, host first. */
  function LoadCommands(files: seq<string>, k: nat): (r: seq<string>)
    requires k <= |files|
    ensures |r| == k
  {
    if k == 0 then [] else LoadCommands(files, k - 1) + [LoadCommand(k - 2, files[k - 1])]
  }

  /** Entry `i` of the load commands is the command of instance `i - 1`. */
  lemma {:induction false} LoadCommandsAt(files: seq<string>, k: nat, i: nat)
    requires i < k <= |files|
    ensures LoadCommands(files, k)[i] == LoadCommand(i - 1, files[i])
  {
    var last := LoadCommand(k - 2, files[k - 1]);
    assert LoadCommands(files, k) == LoadCommands(files, k - 1) + [last];
    if i < k - 1 {
      LoadCommandsAt(files, k - 1, i);
    } else {
      assert i - 1 == k - 2 && files[i] == files[k - 1];
    }
  }

  /** Runs the load command of each instance file in turn, stopping at the
      first file that does not exist. */
  method LoadAll(files: seq<string>, isFile: string -> bool) returns (r: LoadOutcome)
    ensures |r.commands| <= |files|
    ensures r.commands == LoadCommands(files, |r.commands|)
    ensures forall i :: 0 <= i < |r.commands| ==> isFile(files[i])
    ensures r.missing.None? <==> |r.commands| == |files|
    ensures r.missing.Some? ==> r.missing.value == files[|r.commands|] && !isFile(files[|r.commands|])
  {
    var commands := [];
    for k := 0 to |files|
      invariant commands == LoadCommands(files, k)
      invariant forall i :: 0 <= i < k ==> isFile(files[i])
    {
      if !isFile(files[k]) {
        return LoadOutcome(commands, Some(files[k]));
      }
      commands := commands + [LoadCommand(k - 1, files[k])];
    }
    return LoadOutcome(commands, None);
  }

  /** `config load [filename]`: every instance in order, stopping at the first
      file that does not exist. */
  method Load(filename: Option<string>, numAsic: nat, multiNpu: bool, isFile: string -> bool)
    returns (r: Result<LoadOutcome, FileError>)
    ensures r.Err? <==> UserFiles(filename, NumConfigFiles(numAsic, multiNpu)).Err?
    ensures r.Ok? ==>
      var cfgFiles := UserFiles(filename, NumConfigFiles(numAsic, multiNpu)).value;
      var cmds := r.value.commands;
      var files := InstanceFiles(cfgFiles, NumConfigFiles(numAsic, multiNpu));
      && |cmds| <= NumConfigFiles(numAsic, multiNpu)
      && (forall i :: 0 <= i < |cmds| ==> isFile(files[i]) && cmds[i] == LoadCommand(i - 1, files[i]))
      && (r.value.missing.None? <==> |cmds| == NumConfigFiles(numAsic, multiNpu))
      && (r.value.missing.Some? ==> r.value.missing.value == files[|cmds|] && !isFile(files[|cmds|]))
  {
    var n := NumConfigFiles(numAsic, multiNpu);
    var user := UserFiles(filename, n);
    if user.Err? {
      return Err(user.error);
    }
    var files := InstanceFiles(user.value, n);
    var outcome := LoadAll(files, isFile);
    forall i | 0 <= i < |outcome.commands|
      ensures outcome.commands[i] == LoadCommand(i - 1, files[i])
    {
      LoadCommandsAt(files, |outcome.commands|, i);
    }
    return Ok(outcome);
  }

  /** One instance's part of `config reload`: its database is flushed and the
      file written into it. */
  datatype ReloadStep = ReloadStep(namespace: Option<string>, command: string)

  /** `config reload [filename]`, the configuration-file part: an instance
      whose file is missing is skipped, the others are reloaded in order. */
  method Reload(filename: Option<string>, numAsic: nat, multiNpu: bool, isFile: string -> bool)
    returns (r: Result<seq<ReloadStep>, FileError>)
    ensures r.Err? <==> UserFiles(filename, NumConfigFiles(numAsic, multiNpu)).Err?
    ensures r.Ok? ==>
      var cfgFiles := UserFiles(filename, NumConfigFiles(numAsic, multiNpu)).value;
      r.value == ReloadSteps(cfgFiles, isFile, NumConfigFiles(numAsic, multiNpu) - 1)
  {
    var n := NumConfigFiles(numAsic, multiNpu);
    var user := UserFiles(filename, n);
    if user.Err? {
      return Err(user.error);
    }
    var cfgFiles := user.value;
    assert cfgFiles != [] ==> |cfgFiles| == n;
    var steps := [];
    var inst: int := -1;
    while inst < n - 1
      invariant -1 <= inst <= n - 1
      invariant cfgFiles != [] ==> |cfgFiles| == n
      invariant steps == ReloadSteps(cfgFiles, isFile, inst)
    {
      var file := FileFor(cfgFiles, inst);
      if isFile(file) {
        steps := steps + [ReloadStep(Namespace(inst), ReloadCommand(inst, file, isFile(InitConfigFile)))];
      }
      inst := inst + 1;
    }
    return Ok(steps);
  }

  /** The steps for instances -1 up to (not including) `upTo`. */
  function ReloadSteps(cfgFiles: seq<string>, isFile: string -> bool, upTo: int): seq<ReloadStep>
    requires upTo >= -1
    requires cfgFiles != [] ==> upTo <= |cfgFiles| - 1
    decreases upTo + 1
  {
    if upTo == -1 then []
    else
      var inst := upTo - 1;
      var rest := ReloadSteps(cfgFiles, isFile, inst);
      if isFile(FileFor(cfgFiles, inst)) then rest + [ReloadStep(Namespace(inst), ReloadCommand(inst, FileFor(cfgFiles, inst), isFile(InitConfigFile)))]
      else rest
  }

  /** Some step of `steps` works on namespace `ns`. */
  predicate Reaches(steps: seq<ReloadStep>, ns: Option<string>) {
    exists s :: s in steps && s.namespace == ns
  }

  lemma ReachesAppend(steps: seq<ReloadStep>, step: ReloadStep, ns: Option<string>)
    ensures Reaches(steps + [step], ns) <==> Reaches(steps, ns) || step.namespace == ns
  {
    if step.namespace == ns {
      assert step in steps + [step];
    }
    if Reaches(steps, ns) {
      var s :| s in steps && s.namespace == ns;
      assert s in steps + [step];
    }
  }

  /** `reload` reaches exactly the instances whose file exists. */
  lemma {:induction false} ReloadStepsMembers(cfgFiles: seq<string>, isFile: string -> bool, upTo: int, inst: int)
    requires upTo >= -1
    requires cfgFiles != [] ==> upTo <= |cfgFiles| - 1
    requires -1 <= inst
    ensures Reaches(ReloadSteps(cfgFiles, isFile, upTo), Namespace(inst)) <==>
      inst < upTo && isFile(FileFor(cfgFiles, inst))
    decreases upTo + 1
  {
    if upTo != -1 {
      var prev := upTo - 1;
      var rest := ReloadSteps(cfgFiles, isFile, prev);
      var full := ReloadSteps(cfgFiles, isFile, upTo);
      ReloadStepsMembers(cfgFiles, isFile, prev, inst);
      if inst != prev {
        InstancesDistinct(inst, prev);
      }
      if isFile(FileFor(cfgFiles, prev)) {
        var step := ReloadStep(Namespace(prev), ReloadCommand(prev, FileFor(cfgFiles, prev), isFile(InitConfigFile)));
        assert full == rest + [step];
        ReachesAppend(rest, step, Namespace(inst));
      } else {
        assert full == rest;
      }
    }
  }

  /** No instance is reloaded twice: the steps' namespaces are pairwise distinct. */
  lemma {:induction false} ReloadStepsDistinct(cfgFiles: seq<string>, isFile: string -> bool, upTo: int)
    requires upTo >= -1
    requires cfgFiles != [] ==> upTo <= |cfgFiles| - 1
    ensures var steps := ReloadSteps(cfgFiles, isFile, upTo);
      forall a, b :: 0 <= a < b < |steps| ==> steps[a].namespace != steps[b].namespace
    decreases upTo + 1
  {
    if upTo != -1 {
      var prev := upTo - 1;
      var rest := ReloadSteps(cfgFiles, isFile, prev);
      ReloadStepsDistinct(cfgFiles, isFile, prev);
      ReloadStepsMembers(cfgFiles, isFile, prev, prev);
      assert !Reaches(rest, Namespace(prev));
      if isFile(FileFor(cfgFiles, prev)) {
        var step := ReloadStep(Namespace(prev), ReloadCommand(prev, FileFor(cfgFiles, prev), isFile(InitConfigFile)));
        var full := rest + [step];
        assert ReloadSteps(cfgFiles, isFile, upTo) == full;
        forall a, b | 0 <= a < b < |full|
          ensures full[a].namespace != full[b].namespace
        {
          assert full[a] == rest[a] && rest[a] in rest;
          if b < |rest| {
            assert full[b] == rest[b];
          } else {
            assert full[b] == step;
          }
        }
      } else {
        assert ReloadSteps(cfgFiles, isFile, upTo) == rest;
      }
    }
  }
}
