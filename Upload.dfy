/** What `upload()` in src/upload.ts does before any worker exists: choose
    the provider, check the target directory, list the files and map each
    to its remote path; then build the coordinator and start it. The file
    system, the glob, the MIME lookup, the environment and the prompts are
    inputs: a `Host` of functions and plain values. */
module Upload {
  import opened Wrappers
  import opened Types
  import Partition
  import Coordinator
  import Master

  /** The provider part of the loaded configuration: a `provider` key, a
      `providers` list, or neither. */
  datatype ProviderSetting =
    | Single(provider: Option<Provider>)
    | Multi(items: seq<ProviderConfigItem>)
    | Unset

  /** The loaded configuration, as far as `upload()` reads it. */
  datatype UserConfig = UserConfig(
    providers: ProviderSetting,
    target: Option<string>,
    destination: Option<string>,
    includeFiles: Option<seq<string>>,
    ignoreFiles: Option<seq<string>>,
    maxWorkers: Option<int>,
    retryTimes: Option<JsNumber>,
    removeWhenUploaded: bool,
    abortOnFailure: bool)

  /** Why a run is cancelled before it starts. */
  datatype CancelReason =
    | NoProviderMatchedTag(tag: string)
    | OperationCancelled
    | NoProviderConfigured
    | NoTargetDirectory
    | TargetDirectoryMissing(dir: string)
    | NoFilesFound

  /** The outside world `upload()` consults. `sep` is `path.sep`;
      `glob(patterns, ignore, cwd)` lists relative paths; `existsSync` is
      `fs.existsSync`; `mimeType` and `contentType` answer `None` where the
      lookup answers `false`; `combineURLs` is outside this model and is
      left uninterpreted. */
  datatype Host = Host(
    sep: char,
    resolve: string -> string,
    join: (string, string) -> string,
    basename: string -> string,
    existsSync: string -> bool,
    glob: (seq<string>, Option<seq<string>>, string) -> seq<string>,
    mimeType: string -> Option<string>,
    contentType: string -> Option<string>,
    combineURLs: (string, string) -> string)

  /** JavaScript truthiness of an optional string. */
  predicate Truthy(s: Option<string>)
  {
    s.Some? && s.value != ""
  }

  /** `items.find(item => item.tag === tag)`, by index. */
  function FirstTagged(items: seq<ProviderConfigItem>, tag: string): (r: Option<nat>)
    ensures r.Some? ==> r.value < |items| && items[r.value].tag == tag
    ensures r.Some? ==> forall j :: 0 <= j < r.value ==> items[j].tag != tag
    ensures r.None? ==> forall j :: 0 <= j < |items| ==> items[j].tag != tag
  {
    if |items| == 0 then None
    else if items[0].tag == tag then Some(0)
    else
      match FirstTagged(items[1..], tag)
      case None => None
      case Some(i) => Some(i + 1)
  }

  /** Provider selection (src/upload.ts:32-85). `ciTag` is the
      `OSSX_CI_PROVIDER_TAG` variable; `choice` is the tag picked and
      confirmed at the prompts, `None` when either prompt is cancelled or
      declined. */
  function SelectProvider(setting: ProviderSetting, ciTag: Option<string>, choice: Option<string>): (r: Result<Provider, CancelReason>)
    // a single `provider` is used as it is
    ensures setting.Single? ==> r == (if setting.provider.Some? then Ok(setting.provider.value) else Err(NoProviderConfigured))
    // a one-element list is used without looking at tags
    ensures setting.Multi? && |setting.items| == 1 ==> r == Ok(setting.items[0].provider)
    ensures setting.Unset? || (setting.Multi? && |setting.items| == 0) ==> r == Err(NoProviderConfigured)
    // in CI the first provider with an equal tag is used; none cancels the run
    ensures setting.Multi? && |setting.items| > 1 && Truthy(ciTag) ==>
      && (r.Ok? <==> exists i :: 0 <= i < |setting.items| && setting.items[i].tag == ciTag.value)
      && (r.Ok? ==> exists i :: && 0 <= i < |setting.items| && setting.items[i].tag == ciTag.value
                               && r.value == setting.items[i].provider
                               && forall j :: 0 <= j < i ==> setting.items[j].tag != ciTag.value)
      && (r.Err? ==> r.error == NoProviderMatchedTag(ciTag.value))
    // otherwise the prompt decides; cancelling it cancels the run
    ensures setting.Multi? && |setting.items| > 1 && !Truthy(ciTag) ==>
      && (choice.None? ==> r == Err(OperationCancelled))
      && (choice.Some? ==> (r.Ok? <==> exists i :: 0 <= i < |setting.items| && setting.items[i].tag == choice.value))
      && (choice.Some? && r.Ok? ==> exists i :: && 0 <= i < |setting.items| && setting.items[i].tag == choice.value
                                            && r.value == setting.items[i].provider
                                            && forall j :: 0 <= j < i ==> setting.items[j].tag != choice.value)
      && (choice.Some? && r.Err? ==> r.error == NoProviderConfigured)
    // whatever is selected is one of the configured providers
    ensures r.Ok? && setting.Multi? ==> exists i :: 0 <= i < |setting.items| && setting.items[i].provider == r.value
  {
    match setting
    case Single(p) => if p.Some? then Ok(p.value) else Err(NoProviderConfigured)
    case Unset => Err(NoProviderConfigured)
    case Multi(items) =>
      if |items| == 1 then Ok(items[0].provider)
      else if |items| == 0 then Err(NoProviderConfigured)
      else if Truthy(ciTag) then
        match FirstTagged(items, ciTag.value)
        case Some(i) => Ok(items[i].provider)
        case None => Err(NoProviderMatchedTag(ciTag.value))
      else if choice.None? then Err(OperationCancelled)
      else
        match FirstTagged(items, choice.value)
        case Some(i) => Ok(items[i].provider)
        case None => Err(NoProviderConfigured)
  }

  // ---------------------------------------------------------------------
  // Remote paths

  /** `s.split(sep)`: the pieces between separators, at least one. */
  function Split(s: string, sep: char): (parts: seq<string>)
    ensures |parts| >= 1
    ensures forall k :: 0 <= k < |parts| ==> sep !in parts[k]
  {
    if |s| == 0 then [""]
    else
      var rest := Split(s[1..], sep);
      if s[0] == sep then [""] + rest
      else [[s[0]] + rest[0]] + rest[1..]
  }

  /** `parts.join(glue)`. */
  function Join(parts: seq<string>, glue: string): string
  {
    if |parts| == 0 then ""
    else if |parts| == 1 then parts[0]
    else parts[0] + glue + Join(parts[1..], glue)
  }

  /** `s` with every `from` replaced by `to`. */
  function Replace(s: string, from: char, to: char): (r: string)
    ensures |r| == |s|
    ensures forall k :: 0 <= k < |s| ==> r[k] == (if s[k] == from then to else s[k])
  {
    if |s| == 0 then "" else [if s[0] == from then to else s[0]] + Replace(s[1..], from, to)
  }

  lemma JoinPrepend(c: char, parts: seq<string>, glue: string)
    requires |parts| >= 1
    ensures Join([[c] + parts[0]] + parts[1..], glue) == [c] + Join(parts, glue)
  {
    var ps := [[c] + parts[0]] + parts[1..];
    if |parts| > 1 {
      assert ps[1..] == parts[1..];
    }
  }

  /** Splitting at one character and joining with another replaces it. */
  lemma {:induction false} SplitJoin(s: string, sep: char, c: char)
    ensures Join(Split(s, sep), [c]) == Replace(s, sep, c)
  {
    if |s| > 0 {
      var rest := Split(s[1..], sep);
      SplitJoin(s[1..], sep, c);
      if s[0] == sep {
        assert ([""] + rest)[1..] == rest;
      } else {
        JoinPrepend(s[0], rest, [c]);
      }
    }
  }

  /** `split(sep).join('/')` (src/upload.ts:123) turns each separator into
      `/` and changes nothing else; joining the pieces with the separator
      again gives the path back. */
  lemma NormalizedPath(s: string, sep: char)
    ensures Join(Split(s, sep), "/") == Replace(s, sep, '/')
    ensures Join(Split(s, sep), [sep]) == s
    ensures sep != '/' ==> sep !in Join(Split(s, sep), "/")
  {
    SplitJoin(s, sep, '/');
    SplitJoin(s, sep, sep);
    assert Replace(s, sep, sep) == s;
  }

  /** The remote path of a glob path (src/upload.ts:123-124). */
  function RemotePath(host: Host, destination: Option<string>, globFile: string): (r: string)
    // without a destination: the glob path with every separator turned into `/`
    ensures !Truthy(destination) ==>
      && |r| == |globFile|
      && forall k :: 0 <= k < |r| ==> r[k] == (if globFile[k] == host.sep then '/' else globFile[k])
    // with one: that path appended to the destination by `combineURLs`
    ensures Truthy(destination) ==> r == host.combineURLs(destination.value, Replace(globFile, host.sep, '/'))
  {
    NormalizedPath(globFile, host.sep);
    var normalizedPath := Join(Split(globFile, host.sep), "/");
    if Truthy(destination) then host.combineURLs(destination.value, normalizedPath) else normalizedPath
  }

  /** The file record built for one glob path (src/upload.ts:113-131). */
  function FileFor(host: Host, targetDir: string, destination: Option<string>, globFile: string): OSSFile
  {
    var localFilePath := host.join(targetDir, globFile);
    var filename := host.basename(localFilePath);
    OSSFile(filename, localFilePath, RemotePath(host, destination, globFile),
            host.mimeType(filename), host.contentType(filename))
  }

  function FilesFor(host: Host, targetDir: string, destination: Option<string>, globFiles: seq<string>): (files: seq<OSSFile>)
    ensures |files| == |globFiles|
    ensures forall i :: 0 <= i < |globFiles| ==> files[i] == FileFor(host, targetDir, destination, globFiles[i])
  {
    if |globFiles| == 0 then []
    else FilesFor(host, targetDir, destination, globFiles[..|globFiles| - 1])
         + [FileFor(host, targetDir, destination, globFiles[|globFiles| - 1])]
  }

  /** The glob patterns: `includeFiles` if given, else every file. */
  function Patterns(config: UserConfig): seq<string>
  {
    if config.includeFiles.Some? then config.includeFiles.value else ["**/*"]
  }

  /** The checks and the file list of `upload()` (src/upload.ts:32-133),
      ending with the options the coordinator is built with and its files. */
  function Prepare(config: UserConfig, ciTag: Option<string>, choice: Option<string>, host: Host)
    : (r: Result<(UploadOptions, seq<OSSFile>), CancelReason>)
    // the run starts only with a provider, an existing target and at least one file
    ensures r.Ok? <==>
      && SelectProvider(config.providers, ciTag, choice).Ok?
      && Truthy(config.target)
      && host.existsSync(host.resolve(config.target.value))
      && |host.glob(Patterns(config), config.ignoreFiles, host.resolve(config.target.value))| > 0
    ensures r.Ok? ==> |r.value.1| > 0
    ensures r.Ok? ==> r.value.0.provider == SelectProvider(config.providers, ciTag, choice).value
    // each glob path becomes one file, in order, with its remote path
    ensures r.Ok? ==> var targetDir := host.resolve(config.target.value);
      var globFiles := host.glob(Patterns(config), config.ignoreFiles, targetDir);
      && |r.value.1| == |globFiles|
      && forall i :: 0 <= i < |globFiles| ==>
           && r.value.1[i].localFilePath == host.join(targetDir, globFiles[i])
           && r.value.1[i].remoteFilePath == RemotePath(host, config.destination, globFiles[i])
    // the coordinator gets the configuration with the selected provider, and
    // exactly the file records built from the glob paths
    ensures r.Ok? ==> r.value.0 == UploadOptions(SelectProvider(config.providers, ciTag, choice).value,
                                                config.maxWorkers, config.retryTimes,
                                                config.removeWhenUploaded, config.abortOnFailure)
    ensures r.Ok? ==> r.value.1 == FilesFor(host, host.resolve(config.target.value), config.destination,
                                            host.glob(Patterns(config), config.ignoreFiles, host.resolve(config.target.value)))
    // the checks come in order: provider, target, directory, files
    ensures SelectProvider(config.providers, ciTag, choice).Err? ==> r == Err(SelectProvider(config.providers, ciTag, choice).error)
    ensures SelectProvider(config.providers, ciTag, choice).Ok? && !Truthy(config.target) ==> r == Err(NoTargetDirectory)
    ensures SelectProvider(config.providers, ciTag, choice).Ok? && Truthy(config.target)
            && !host.existsSync(host.resolve(config.target.value))
            ==> r == Err(TargetDirectoryMissing(host.resolve(config.target.value)))
    ensures SelectProvider(config.providers, ciTag, choice).Ok? && Truthy(config.target)
            && host.existsSync(host.resolve(config.target.value))
            && |host.glob(Patterns(config), config.ignoreFiles, host.resolve(config.target.value))| == 0
            ==> r == Err(NoFilesFound)
  {
    match SelectProvider(config.providers, ciTag, choice)
    case Err(reason) => Err(reason)
    case Ok(provider) =>
      if !Truthy(config.target) then Err(NoTargetDirectory)
      else
        var targetDir := host.resolve(config.target.value);
        if !host.existsSync(targetDir) then Err(TargetDirectoryMissing(targetDir))
        else
          var globFiles := host.glob(Patterns(config), config.ignoreFiles, targetDir);
          var ossFiles := FilesFor(host, targetDir, config.destination, globFiles);
          if |ossFiles| == 0 then Err(NoFilesFound)
          else
            var options := UploadOptions(provider, config.maxWorkers, config.retryTimes,
                                         config.removeWhenUploaded, config.abortOnFailure);
            Ok((options, ossFiles))
  }

  /** `upload()` (src/upload.ts:19-138) up to the point where the workers are
      running: a coordinator is built only once every check has passed, and
      it is started on the round-robin split of the files. `cpuCount` is
      `os.cpus().length`. */
  method Upload(config: UserConfig, ciTag: Option<string>, choice: Option<string>, host: Host, cpuCount: nat)
    returns (outcome: Result<(), CancelReason>, master: Master.UploadMaster?)
    requires cpuCount >= 1
    ensures outcome.Err? <==> Prepare(config, ciTag, choice, host).Err?
    ensures outcome.Err? ==> master == null && outcome.error == Prepare(config, ciTag, choice, host).error
    ensures outcome.Ok? ==> master != null && fresh(master)
    ensures outcome.Ok? ==>
      && master.files == Prepare(config, ciTag, choice, host).value.1
      && master.options == Prepare(config, ciTag, choice, host).value.0
      && master.maxWorkers > 0
      && master.taskQueues == Partition.RoundRobin(master.files, master.maxWorkers)
      && master.State() == Coordinator.Spawned(master.taskQueues, master.maxWorkers)
      && master.Valid()
      && master.maxWorkers == Master.WorkerCount(master.options.maxWorkers, cpuCount, |master.files|)
      && |master.workers| == master.maxWorkers
      && (forall w :: 0 <= w < master.maxWorkers ==> master.workers[w] == Master.WorkerData(w, master.taskQueues[w], master.options))
  {
    match Prepare(config, ciTag, choice, host)
    case Err(reason) =>
      outcome, master := Err(reason), null;
    case Ok((options, files)) =>
      master := new Master.UploadMaster(files, options, cpuCount);
      master.Start();
      outcome := Ok(());
  }
}
