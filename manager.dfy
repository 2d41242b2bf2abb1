/** The tag store of manager/manager.go: three tiers of tags (config, remote,
    system), their merge and lookup, the local override operations, the key
    rewriting used by listings, the load/save discipline over the config and
    system directories, and the bounded-backoff refresh of the remote tier. */
module Manager {
  import opened Types
  import Strings
  import Paths
  import Os
  import opened Remote

  const DefaultConfigDir: string := "/etc/systags.d"
  const DefaultSystemDir: string := "/var/lib/systags"

  /** The longest sleep between two refresh attempts. */
  const MaxInterval: int := 5 * Second

  /** The JSON layer: json.MarshalIndent(tags, "", "\t") and json.Unmarshal
      into a flat string-to-string object. */
  datatype Codec = Codec(marshal: Tags -> Result<seq<byte>>, unmarshal: seq<byte> -> Result<Tags>)

  /** Decoding what was encoded gives back the tags. */
  predicate RoundTrips(codec: Codec, tags: Tags)
  {
    codec.marshal(tags).Ok? ==> codec.unmarshal(codec.marshal(tags).value) == Ok(tags)
  }

  /** Go's regexp package: which patterns compile and which keys a pattern
      matches (unanchored). */
  datatype Regexp = Regexp(compiles: string -> bool, matches: (string, string) -> bool)

  /** `pattern` selects `key`: in regex mode by the regular expression, in
      exact mode when the key is one of the comma-separated names. The exact
      mode is what matching against "^(" + QuoteMeta(pattern) with commas
      turned into "|" + ")$" amounts to, since QuoteMeta escapes every '|'. */
  predicate Selects(regex: bool, pattern: string, key: string, engine: Regexp)
  {
    if regex then engine.matches(pattern, key) else key in Strings.Split(pattern, ',')
  }

  /** The pick filter: an empty pick keeps every key. */
  predicate Picked(regex: bool, pick: string, key: string, engine: Regexp)
  {
    pick == "" || Selects(regex, pick, key, engine)
  }

  /** The omit filter: an empty omit drops no key. */
  predicate Omitted(regex: bool, omit: string, key: string, engine: Regexp)
  {
    omit != "" && Selects(regex, omit, key, engine)
  }

  /** The listing filter of GetTags applied to the merged tags. */
  function Select(merged: Tags, regex: bool, pick: string, omit: string, engine: Regexp): (r: Tags)
    ensures forall k :: k in r ==> k in merged && r[k] == merged[k]
    ensures forall k :: k in merged ==> (k in r <==> Picked(regex, pick, k, engine) && !Omitted(regex, omit, k, engine))
    ensures !regex && pick != "" ==> forall k :: k in r ==> k in Strings.Split(pick, ',')
    ensures !regex && omit != "" ==> forall k :: k in r ==> k !in Strings.Split(omit, ',')
    ensures pick == "" && omit == "" ==> r == merged
  {
    map k | k in merged && Picked(regex, pick, k, engine) && !Omitted(regex, omit, k, engine) :: merged[k]
  }

  /** The three tiers as loaded from disk. */
  datatype Tiers = Tiers(config: Tags, remote: Tags, system: Tags)

  // ---------------------------------------------------------------------
  // Loading (LoadFiles)
  // ---------------------------------------------------------------------

  /** Read and decode one file. */
  function ReadTags(d: Os.Disk, path: string, codec: Codec): Result<Tags>
  {
    match Os.ReadFile(d, path)
    case Err(e) => Err(e)
    case Ok(bytes) => codec.unmarshal(bytes)
  }

  /** A directory entry the loader folds in: a non-directory named *.json. */
  predicate IsFragment(entry: Os.DirEntry)
  {
    !entry.isDir && Paths.Ext(entry.name) == ".json"
  }

  /** One step of the config fold: merge `entry` into `acc` when it is a
      fragment; a failure, earlier or now, is the result. */
  function FoldEntry(acc: Result<Tags>, d: Os.Disk, dir: string, entry: Os.DirEntry, codec: Codec): Result<Tags>
  {
    match acc
    case Err(e) => Err(e)
    case Ok(tags) =>
      if !IsFragment(entry) then Ok(tags)
      else
        match ReadTags(d, Paths.Join(dir, entry.name), codec)
        case Err(e) => Err(e)
        case Ok(fragment) => Ok(tags + fragment)
  }

  /** The fold of the config fragments among `entries`, in listing order,
      later fragments overriding earlier ones; the first failure aborts. */
  function FoldConfig(d: Os.Disk, dir: string, entries: seq<Os.DirEntry>, codec: Codec): Result<Tags>
    decreases |entries|
  {
    if entries == [] then Ok(map[])
    else FoldEntry(FoldConfig(d, dir, entries[..|entries| - 1], codec), d, dir, entries[|entries| - 1], codec)
  }

  /** The fold over one more entry of the listing. */
  lemma FoldConfigNext(d: Os.Disk, dir: string, entries: seq<Os.DirEntry>, i: nat, codec: Codec)
    requires i < |entries|
    ensures FoldConfig(d, dir, entries[..i + 1], codec) == FoldEntry(FoldConfig(d, dir, entries[..i], codec), d, dir, entries[i], codec)
  {
    assert entries[..i + 1][..i] == entries[..i];
  }

  /** The tags of one listing entry, read from the directory. */
  function FragmentTags(d: Os.Disk, dir: string, entry: Os.DirEntry, codec: Codec): Result<Tags>
  {
    ReadTags(d, Paths.Join(dir, entry.name), codec)
  }

  /** The fold succeeds exactly when every fragment in the listing can be
      read and decoded; directories and other names are never read. */
  lemma {:induction false} FoldConfigOk(d: Os.Disk, dir: string, entries: seq<Os.DirEntry>, codec: Codec)
    ensures FoldConfig(d, dir, entries, codec).Ok? <==>
            forall i :: 0 <= i < |entries| && IsFragment(entries[i]) ==> FragmentTags(d, dir, entries[i], codec).Ok?
    decreases |entries|
  {
    if entries != [] {
      var pre := entries[..|entries| - 1];
      FoldConfigOk(d, dir, pre, codec);
      assert forall i :: 0 <= i < |pre| ==> pre[i] == entries[i];
    }
  }

  /** Every key of every fragment ends up in the config tier. */
  lemma {:induction false} FoldConfigCovers(d: Os.Disk, dir: string, entries: seq<Os.DirEntry>, codec: Codec, i: nat)
    requires FoldConfig(d, dir, entries, codec).Ok?
    requires i < |entries| && IsFragment(entries[i])
    ensures FragmentTags(d, dir, entries[i], codec).Ok?
    ensures FragmentTags(d, dir, entries[i], codec).value.Keys <= FoldConfig(d, dir, entries, codec).value.Keys
    decreases |entries|
  {
    var pre := entries[..|entries| - 1];
    if i < |pre| {
      assert pre[i] == entries[i];
      FoldConfigCovers(d, dir, pre, codec, i);
    }
  }

  /** A key takes its value from the last fragment, in listing order, that
      holds it. */
  lemma {:induction false} FoldConfigLastWins(d: Os.Disk, dir: string, entries: seq<Os.DirEntry>, codec: Codec, i: nat, key: string)
    requires FoldConfig(d, dir, entries, codec).Ok?
    requires i < |entries| && IsFragment(entries[i])
    requires FragmentTags(d, dir, entries[i], codec).Ok? && key in FragmentTags(d, dir, entries[i], codec).value
    requires forall j :: i < j < |entries| && IsFragment(entries[j]) && FragmentTags(d, dir, entries[j], codec).Ok?
               ==> key !in FragmentTags(d, dir, entries[j], codec).value
    ensures key in FoldConfig(d, dir, entries, codec).value
    ensures FoldConfig(d, dir, entries, codec).value[key] == FragmentTags(d, dir, entries[i], codec).value[key]
    decreases |entries|
  {
    var pre := entries[..|entries| - 1];
    if i < |pre| {
      assert pre[i] == entries[i];
      assert forall j :: i < j < |pre| ==> pre[j] == entries[j];
      FoldConfigLastWins(d, dir, pre, codec, i, key);
    }
  }

  /** Every key of the config tier comes from some fragment of the listing. */
  lemma {:induction false} FoldConfigSourced(d: Os.Disk, dir: string, entries: seq<Os.DirEntry>, codec: Codec, key: string)
    requires FoldConfig(d, dir, entries, codec).Ok?
    requires key in FoldConfig(d, dir, entries, codec).value
    ensures exists i :: 0 <= i < |entries| && IsFragment(entries[i]) && FragmentTags(d, dir, entries[i], codec).Ok?
                        && key in FragmentTags(d, dir, entries[i], codec).value
    decreases |entries|
  {
    var n := |entries| - 1;
    var pre := entries[..n];
    var last := entries[n];
    if IsFragment(last) && key in FragmentTags(d, dir, last, codec).value {
      assert IsFragment(entries[n]) && key in FragmentTags(d, dir, entries[n], codec).value;
    } else {
      FoldConfigSourced(d, dir, pre, codec, key);
      var i :| 0 <= i < |pre| && IsFragment(pre[i]) && FragmentTags(d, dir, pre[i], codec).Ok?
                && key in FragmentTags(d, dir, pre[i], codec).value;
      assert pre[i] == entries[i];
    }
  }

  /** The defaults of loading: a directory that cannot be listed gives an
      empty config tier, a missing file an empty tier. */
  lemma LoadDefaults(d: Os.Disk, dir: string, path: string, codec: Codec)
    ensures !Os.IsDir(d, dir) || dir in d.unreadable ==> LoadConfig(d, dir, codec) == Ok(map[])
    ensures !Os.Exists(d, path) ==> LoadTier(d, path, codec) == Ok(map[])
  {
  }

  /** The config tier: empty when the directory cannot be listed. */
  function LoadConfig(d: Os.Disk, dir: string, codec: Codec): Result<Tags>
  {
    match Os.ReadDir(d, dir)
    case Err(_) => Ok(map[])
    case Ok(entries) => FoldConfig(d, dir, entries, codec)
  }

  /** A system-directory tier: empty when the file does not exist. */
  function LoadTier(d: Os.Disk, path: string, codec: Codec): Result<Tags>
  {
    if !Os.Exists(d, path) then Ok(map[]) else ReadTags(d, path, codec)
  }

  function RemoteFile(systemDir: string): string
  {
    Paths.Join(systemDir, "remote.json")
  }

  function SystemFile(systemDir: string): string
  {
    Paths.Join(systemDir, "system.json")
  }

  /** What LoadFiles reads: config, then remote, then system; the first
      error is the result. */
  function Load(d: Os.Disk, configDir: string, systemDir: string, codec: Codec): Result<Tiers>
  {
    match LoadConfig(d, configDir, codec)
    case Err(e) => Err(e)
    case Ok(config) =>
      match LoadTier(d, RemoteFile(systemDir), codec)
      case Err(e) => Err(e)
      case Ok(remote) =>
        match LoadTier(d, SystemFile(systemDir), codec)
        case Err(e) => Err(e)
        case Ok(system) => Ok(Tiers(config, remote, system))
  }

  /** The config-directory part of LoadFiles: list the directory and merge
      each fragment into the running result. */
  method LoadConfigDir(d: Os.Disk, dir: string, codec: Codec) returns (res: Result<Tags>)
    ensures res == LoadConfig(d, dir, codec)
  {
    var configData: Tags := map[];
    var listing := Os.ReadDir(d, dir);
    if listing.Err? {
      return Ok(configData);
    }
    var files := listing.value;
    for i := 0 to |files|
      invariant FoldConfig(d, dir, files[..i], codec) == Ok(configData)
    {
      FoldConfigNext(d, dir, files, i, codec);
      var file := files[i];
      if file.isDir {
        continue;
      }
      if Paths.Ext(file.name) != ".json" {
        continue;
      }
      var configFile := Paths.Join(dir, file.name);
      var configBytes := Os.ReadFile(d, configFile);
      if configBytes.Err? {
        FoldConfigFailureSticks(d, dir, files, i + 1, codec);
        return Err(configBytes.error);
      }
      var configJson := codec.unmarshal(configBytes.value);
      if configJson.Err? {
        FoldConfigFailureSticks(d, dir, files, i + 1, codec);
        return Err(configJson.error);
      }
      configData := Overlay(configData, configJson.value);
    }
    assert files[..|files|] == files;
    return Ok(configData);
  }

  /** One system-directory file of LoadFiles: skipped when it does not exist. */
  method LoadTierFile(d: Os.Disk, path: string, codec: Codec) returns (res: Result<Tags>)
    ensures res == LoadTier(d, path, codec)
  {
    if !Os.Exists(d, path) {
      return Ok(map[]);
    }
    var bytes := Os.ReadFile(d, path);
    if bytes.Err? {
      return Err(bytes.error);
    }
    res := codec.unmarshal(bytes.value);
  }

  // ---------------------------------------------------------------------
  // Saving (SaveFiles)
  // ---------------------------------------------------------------------

  /** The disk after a step of SaveFiles, and the error that stopped it. */
  datatype Saved = Saved(disk: Os.Disk, err: Option<Error>)

  function Write(d: Os.Disk, path: string, data: seq<byte>): Saved
  {
    match Os.WriteTo(d, path, data)
    case Ok(d') => Saved(d', None)
    case Err(e) => Saved(d, Some(e))
  }

  /** Copy an existing file to its ".bak" sibling. */
  function Backup(d: Os.Disk, path: string): Saved
  {
    if !Os.Exists(d, path) then Saved(d, None)
    else
      match Os.ReadFile(d, path)
      case Err(e) => Saved(d, Some(e))
      case Ok(bytes) => Write(d, path + ".bak", bytes)
  }

  /** What SaveFiles does: encode both tiers, back up remote, back up
      system, write remote, write system, stopping at the first error. */
  function Save(d: Os.Disk, systemDir: string, codec: Codec, remote: Tags, system: Tags): Saved
  {
    match codec.marshal(remote)
    case Err(e) => Saved(d, Some(e))
    case Ok(remoteJson) =>
      match codec.marshal(system)
      case Err(e) => Saved(d, Some(e))
      case Ok(systemJson) =>
        var s1 := Backup(d, RemoteFile(systemDir));
        if s1.err.Some? then s1
        else
          var s2 := Backup(s1.disk, SystemFile(systemDir));
          if s2.err.Some? then s2
          else
            var s3 := Write(s2.disk, RemoteFile(systemDir), remoteJson);
            if s3.err.Some? then s3
            else Write(s3.disk, SystemFile(systemDir), systemJson)
  }

  /** The four paths SaveFiles touches are distinct. */
  lemma SavePathsDistinct(systemDir: string)
    ensures RemoteFile(systemDir) != SystemFile(systemDir)
    ensures RemoteFile(systemDir) + ".bak" != SystemFile(systemDir) + ".bak"
    ensures |RemoteFile(systemDir)| == |SystemFile(systemDir)| == |systemDir| + 12
  {
    var i := |systemDir| + 1;
    assert RemoteFile(systemDir)[i] == 'r' && SystemFile(systemDir)[i] == 's';
    assert (RemoteFile(systemDir) + ".bak")[i] == 'r' && (SystemFile(systemDir) + ".bak")[i] == 's';
  }

  /** A path SaveFiles does not write. */
  predicate Untouched(systemDir: string, path: string)
  {
    && path != RemoteFile(systemDir) && path != RemoteFile(systemDir) + ".bak"
    && path != SystemFile(systemDir) && path != SystemFile(systemDir) + ".bak"
  }

  /** Both encodings come before any write: when either fails, nothing is
      written and the encoding error is the result. */
  lemma SaveEncodeFailure(d: Os.Disk, systemDir: string, codec: Codec, remote: Tags, system: Tags)
    requires codec.marshal(remote).Err? || codec.marshal(system).Err?
    ensures Save(d, systemDir, codec, remote, system).disk == d
    ensures Save(d, systemDir, codec, remote, system).err
         == Some(if codec.marshal(remote).Err? then codec.marshal(remote).error else codec.marshal(system).error)
  {
  }

  /** A backup or a write changes nothing but its own target, and never the
      fault sets. */
  lemma BackupFrame(d: Os.Disk, path: string, other: string)
    requires other != path + ".bak"
    ensures Backup(d, path).disk.unreadable == d.unreadable && Backup(d, path).disk.unwritable == d.unwritable
    ensures other in Backup(d, path).disk.entries <==> other in d.entries
    ensures other in d.entries ==> Backup(d, path).disk.entries[other] == d.entries[other]
  {
  }

  lemma WriteFrame(d: Os.Disk, path: string, data: seq<byte>, other: string)
    requires other != path
    ensures Write(d, path, data).disk.unreadable == d.unreadable && Write(d, path, data).disk.unwritable == d.unwritable
    ensures other in Write(d, path, data).disk.entries <==> other in d.entries
    ensures other in d.entries ==> Write(d, path, data).disk.entries[other] == d.entries[other]
  {
  }

  /** Whatever the outcome, SaveFiles changes no path but its two targets
      and their backups, and no fault set. */
  lemma SaveFrame(d: Os.Disk, systemDir: string, codec: Codec, remote: Tags, system: Tags, path: string)
    requires Untouched(systemDir, path)
    ensures var d' := Save(d, systemDir, codec, remote, system).disk;
            && d'.unreadable == d.unreadable && d'.unwritable == d.unwritable
            && (path in d'.entries <==> path in d.entries)
            && (path in d.entries ==> d'.entries[path] == d.entries[path])
  {
    if codec.marshal(remote).Ok? && codec.marshal(system).Ok? {
      var rf, sf := RemoteFile(systemDir), SystemFile(systemDir);
      var s1 := Backup(d, rf);
      BackupFrame(d, rf, path);
      var s2 := Backup(s1.disk, sf);
      BackupFrame(s1.disk, sf, path);
      var s3 := Write(s2.disk, rf, codec.marshal(remote).value);
      WriteFrame(s2.disk, rf, codec.marshal(remote).value, path);
      WriteFrame(s3.disk, sf, codec.marshal(system).value, path);
    }
  }

  /** After a successful SaveFiles each target that existed holds its former
      bytes in its ".bak" sibling, and each target holds its new encoding. */
  lemma SaveSuccess(d: Os.Disk, systemDir: string, codec: Codec, remote: Tags, system: Tags)
    requires Save(d, systemDir, codec, remote, system).err == None
    ensures var d' := Save(d, systemDir, codec, remote, system).disk;
            var rf, sf := RemoteFile(systemDir), SystemFile(systemDir);
            && codec.marshal(remote).Ok? && codec.marshal(system).Ok?
            && rf in d'.entries && d'.entries[rf] == Os.File(codec.marshal(remote).value)
            && sf in d'.entries && d'.entries[sf] == Os.File(codec.marshal(system).value)
            && (Os.Exists(d, rf) ==> d.entries[rf].File? && rf + ".bak" in d'.entries && d'.entries[rf + ".bak"] == d.entries[rf])
            && (Os.Exists(d, sf) ==> d.entries[sf].File? && sf + ".bak" in d'.entries && d'.entries[sf + ".bak"] == d.entries[sf])
  {
    var rf, sf := RemoteFile(systemDir), SystemFile(systemDir);
    SavePathsDistinct(systemDir);
    var s1 := Backup(d, rf);
    var s2 := Backup(s1.disk, sf);
    var s3 := Write(s2.disk, rf, codec.marshal(remote).value);
    var s4 := Write(s3.disk, sf, codec.marshal(system).value);
    assert s4 == Save(d, systemDir, codec, remote, system);
    // the system backup keeps the remote backup, and so do the two writes
    BackupFrame(s1.disk, sf, rf + ".bak");
    WriteFrame(s2.disk, rf, codec.marshal(remote).value, rf + ".bak");
    WriteFrame(s3.disk, sf, codec.marshal(system).value, rf + ".bak");
    WriteFrame(s2.disk, rf, codec.marshal(remote).value, sf + ".bak");
    WriteFrame(s3.disk, sf, codec.marshal(system).value, sf + ".bak");
    WriteFrame(s3.disk, sf, codec.marshal(system).value, rf);
    // the remote backup leaves the system file as it was
    BackupFrame(d, rf, sf);
  }

  /** A target that did not exist is not backed up: whatever the outcome,
      its ".bak" sibling is left as it was. */
  lemma SaveSkipsAbsentBackup(d: Os.Disk, systemDir: string, codec: Codec, remote: Tags, system: Tags, path: string)
    requires path == RemoteFile(systemDir) || path == SystemFile(systemDir)
    requires !Os.Exists(d, path)
    ensures var d' := Save(d, systemDir, codec, remote, system).disk;
            && (path + ".bak" in d'.entries <==> path + ".bak" in d.entries)
            && (path + ".bak" in d.entries ==> d'.entries[path + ".bak"] == d.entries[path + ".bak"])
  {
    if codec.marshal(remote).Ok? && codec.marshal(system).Ok? {
      var rf, sf := RemoteFile(systemDir), SystemFile(systemDir);
      var bak := path + ".bak";
      SavePathsDistinct(systemDir);
      assert |bak| == |systemDir| + 16;
      var s1 := Backup(d, rf);
      BackupFrame(d, rf, sf);
      if path == rf {
        assert s1.disk == d;
      } else {
        BackupFrame(d, rf, bak);
      }
      var s2 := Backup(s1.disk, sf);
      if path == sf {
        assert s2.disk == s1.disk;
      } else {
        BackupFrame(s1.disk, sf, bak);
      }
      var s3 := Write(s2.disk, rf, codec.marshal(remote).value);
      WriteFrame(s2.disk, rf, codec.marshal(remote).value, bak);
      WriteFrame(s3.disk, sf, codec.marshal(system).value, bak);
    }
  }

  /** Saving and loading again gives back both tiers, when the codec round
      trips them and both targets are readable. */
  lemma SaveThenLoad(d: Os.Disk, systemDir: string, codec: Codec, remote: Tags, system: Tags)
    requires Save(d, systemDir, codec, remote, system).err == None
    requires RoundTrips(codec, remote) && RoundTrips(codec, system)
    requires RemoteFile(systemDir) !in d.unreadable && SystemFile(systemDir) !in d.unreadable
    ensures var d' := Save(d, systemDir, codec, remote, system).disk;
            && LoadTier(d', RemoteFile(systemDir), codec) == Ok(remote)
            && LoadTier(d', SystemFile(systemDir), codec) == Ok(system)
  {
    SaveSuccess(d, systemDir, codec, remote, system);
    // the fault sets are those of `d`: any path the save leaves alone shows it
    SaveFrame(d, systemDir, codec, remote, system, systemDir);
  }

  // ---------------------------------------------------------------------
  // Refresh (UpdateRemote)
  // ---------------------------------------------------------------------

  function Min(a: int, b: int): int
  {
    if a < b then a else b
  }

  /** The sleep bound before retry n: 1s doubled each time, capped at 5s. */
  function Backoff(n: nat): int
  {
    if n == 0 then Second else Min(2 * Backoff(n - 1), MaxInterval)
  }

  /** Every sleep bound lies between one and five seconds. */
  lemma {:induction false} BackoffRange(n: nat)
    ensures Second <= Backoff(n) <= MaxInterval
  {
    if n > 0 {
      BackoffRange(n - 1);
    }
  }

  /** The sleep bounds run 1s, 2s, 4s and then 5s for good. */
  lemma {:induction false} BackoffValues(n: nat)
    ensures n == 0 ==> Backoff(n) == Second
    ensures n == 1 ==> Backoff(n) == 2 * Second
    ensures n == 2 ==> Backoff(n) == 4 * Second
    ensures n >= 3 ==> Backoff(n) == MaxInterval
  {
    if n >= 3 {
      BackoffRange(n - 1);
      if n > 3 {
        BackoffValues(n - 1);
      } else {
        assert Backoff(2) == 4 * Second;
      }
    }
  }

  /** Call `n` returned no tags. */
  predicate EmptyAnswer(answer: (nat, int) -> Response, n: nat, timeout: int)
  {
    answer(n, timeout).result == Ok(map[])
  }

  /** The outcome of a refresh: the last answer, the number of the next
      call to the service, and the time elapsed since the refresh began. */
  datatype Polled = Polled(result: Result<Tags>, calls: nat, elapsed: int)

  /** The refresh loop of UpdateRemote from call `n` on, `elapsed` after it
      began, before the `k`-th sleep: call the service; stop on an error, on
      non-empty tags or once more than `retry` has elapsed; otherwise sleep
      min(Backoff(k), time left to the deadline) and call again. */
  function Poll(answer: (nat, int) -> Response, n: nat, timeout: int, retry: int, elapsed: int, k: nat): (o: Polled)
    decreases if elapsed <= retry then retry - elapsed + 1 else 0
  {
    var response := answer(n, timeout);
    var now := elapsed + response.took;
    if response.result.Err? || |response.result.value| > 0 || now > retry then
      Polled(response.result, n + 1, now)
    else
      var nap := Min(Backoff(k), retry - now);
      BackoffRange(k);
      Poll(answer, n + 1, timeout, retry, now + nap, k + 1)
  }

  /** What every refresh guarantees: it returns the last answer, and every
      answer before it was an empty map; it ends on an error, on tags, or
      past the deadline; no call but the first starts after the deadline;
      and with no time left the service is called once. */
  lemma {:induction false} PollOutcome(answer: (nat, int) -> Response, n: nat, timeout: int, retry: int, elapsed: int, k: nat)
    ensures var o := Poll(answer, n, timeout, retry, elapsed, k);
            && o.calls > n && o.result == answer(o.calls - 1, timeout).result
            && (forall j :: n <= j < o.calls - 1 ==> EmptyAnswer(answer, j, timeout))
            && (o.result.Ok? ==> o.result.value != map[] || o.elapsed > retry)
            && (o.calls == n + 1 || o.elapsed - answer(o.calls - 1, timeout).took <= retry)
            && (elapsed >= retry ==> o.calls == n + 1)
            && (o.calls == n + 1 ==> o.elapsed == elapsed + answer(n, timeout).took)
            && o.elapsed > elapsed
    decreases if elapsed <= retry then retry - elapsed + 1 else 0
  {
    var response := answer(n, timeout);
    var now := elapsed + response.took;
    if !(response.result.Err? || |response.result.value| > 0 || now > retry) {
      var nap := Min(Backoff(k), retry - now);
      BackoffRange(k);
      PollOutcome(answer, n + 1, timeout, retry, now + nap, k + 1);
      assert EmptyAnswer(answer, n, timeout);
    }
  }


  // ---------------------------------------------------------------------
  // Key rewriting (PrefixTags, SuffixTags)
  // ---------------------------------------------------------------------

  /** Every tag of `done` sits in `r` under `prefix` + its key. */
  ghost predicate PrefixedAll(r: Tags, tags: Tags, prefix: string, done: set<string>)
  {
    forall k :: k in done ==> k in tags && prefix + k in r && r[prefix + k] == tags[k]
  }

  /** Every key of `r` is `prefix` + a key of `done`. */
  ghost predicate PrefixedOnly(r: Tags, prefix: string, done: set<string>)
  {
    forall k :: k in r ==> Strings.HasPrefix(k, prefix) && k[|prefix|..] in done
  }

  lemma PrefixedAllStep(r: Tags, tags: Tags, prefix: string, done: set<string>, key: string)
    requires PrefixedAll(r, tags, prefix, done) && key in tags
    ensures PrefixedAll(r[prefix + key := tags[key]], tags, prefix, done + {key})
  {
    forall k | k in done + {key}
      ensures prefix + k in r[prefix + key := tags[key]]
      ensures r[prefix + key := tags[key]][prefix + k] == tags[k]
    {
      if prefix + k == prefix + key {
        assert k == (prefix + k)[|prefix|..];
      }
    }
  }

  lemma PrefixedOnlyStep(r: Tags, prefix: string, done: set<string>, key: string, v: string)
    requires PrefixedOnly(r, prefix, done)
    ensures PrefixedOnly(r[prefix + key := v], prefix, done + {key})
  {
    var nk := prefix + key;
    assert nk[..|prefix|] == prefix && nk[|prefix|..] == key;
  }

  /** A key not yet done lands on a fresh key of `r`. */
  lemma PrefixedFresh(r: Tags, prefix: string, done: set<string>, key: string, v: string)
    requires PrefixedOnly(r, prefix, done) && |r| == |done| && key !in done
    ensures |r[prefix + key := v]| == |done + {key}|
  {
    var nk := prefix + key;
    assert nk[|prefix|..] == key;
    assert nk !in r;
    assert r[nk := v].Keys == r.Keys + {nk};
  }

  /** The loop of PrefixTags over a non-empty prefix. */
  method PrefixEach(tags: Tags, prefix: string) returns (r: Tags)
    ensures forall k :: k in tags ==> prefix + k in r && r[prefix + k] == tags[k]
    ensures forall k :: k in r ==> Strings.HasPrefix(k, prefix) && k[|prefix|..] in tags
    ensures |r| == |tags|
  {
    r := map[];
    var todo := tags.Keys;
    ghost var done: set<string> := {};
    while todo != {}
      invariant todo <= tags.Keys && done == tags.Keys - todo
      invariant PrefixedAll(r, tags, prefix, done) && PrefixedOnly(r, prefix, done)
      invariant |r| == |done|
      decreases |todo|
    {
      var key :| key in todo;
      PrefixedAllStep(r, tags, prefix, done, key);
      PrefixedOnlyStep(r, prefix, done, key, tags[key]);
      PrefixedFresh(r, prefix, done, key, tags[key]);
      r := r[prefix + key := tags[key]];
      todo, done := todo - {key}, done + {key};
    }
  }

  /** Every tag of `done` sits in `r` under its key + `suffix`. */
  ghost predicate SuffixedAll(r: Tags, tags: Tags, suffix: string, done: set<string>)
  {
    forall k :: k in done ==> k in tags && k + suffix in r && r[k + suffix] == tags[k]
  }

  /** Every key of `r` is a key of `done` + `suffix`. */
  ghost predicate SuffixedOnly(r: Tags, suffix: string, done: set<string>)
  {
    forall k :: k in r ==> Strings.HasSuffix(k, suffix) && k[..|k| - |suffix|] in done
  }

  lemma SuffixedAllStep(r: Tags, tags: Tags, suffix: string, done: set<string>, key: string)
    requires SuffixedAll(r, tags, suffix, done) && key in tags
    ensures SuffixedAll(r[key + suffix := tags[key]], tags, suffix, done + {key})
  {
    forall k | k in done + {key}
      ensures k + suffix in r[key + suffix := tags[key]]
      ensures r[key + suffix := tags[key]][k + suffix] == tags[k]
    {
      if k + suffix == key + suffix {
        assert k == (k + suffix)[..|k|];
        assert key == (key + suffix)[..|key|];
      }
    }
  }

  lemma SuffixedOnlyStep(r: Tags, suffix: string, done: set<string>, key: string, v: string)
    requires SuffixedOnly(r, suffix, done)
    ensures SuffixedOnly(r[key + suffix := v], suffix, done + {key})
  {
    var nk := key + suffix;
    assert nk[|nk| - |suffix|..] == suffix && nk[..|nk| - |suffix|] == key;
  }

  /** A key not yet done lands on a fresh key of `r`. */
  lemma SuffixedFresh(r: Tags, suffix: string, done: set<string>, key: string, v: string)
    requires SuffixedOnly(r, suffix, done) && |r| == |done| && key !in done
    ensures |r[key + suffix := v]| == |done + {key}|
  {
    var nk := key + suffix;
    assert nk[..|nk| - |suffix|] == key;
    assert nk !in r;
    assert r[nk := v].Keys == r.Keys + {nk};
  }

  /** The loop of SuffixTags over a non-empty suffix. */
  method SuffixEach(tags: Tags, suffix: string) returns (r: Tags)
    ensures forall k :: k in tags ==> k + suffix in r && r[k + suffix] == tags[k]
    ensures forall k :: k in r ==> Strings.HasSuffix(k, suffix) && k[..|k| - |suffix|] in tags
    ensures |r| == |tags|
  {
    r := map[];
    var todo := tags.Keys;
    ghost var done: set<string> := {};
    while todo != {}
      invariant todo <= tags.Keys && done == tags.Keys - todo
      invariant SuffixedAll(r, tags, suffix, done) && SuffixedOnly(r, suffix, done)
      invariant |r| == |done|
      decreases |todo|
    {
      var key :| key in todo;
      SuffixedAllStep(r, tags, suffix, done, key);
      SuffixedOnlyStep(r, suffix, done, key, tags[key]);
      SuffixedFresh(r, suffix, done, key, tags[key]);
      r := r[key + suffix := tags[key]];
      todo, done := todo - {key}, done + {key};
    }
  }

  // ---------------------------------------------------------------------
  // The manager
  // ---------------------------------------------------------------------

  class Manager {
    var configDir: string
    var systemDir: string

    var config: Tags
    var remote: Tags
    var system: Tags

    /** NewManager: the default directories and empty tiers. */
    constructor ()
      ensures configDir == DefaultConfigDir && systemDir == DefaultSystemDir
      ensures config == map[] && remote == map[] && system == map[]
    {
      configDir := DefaultConfigDir;
      systemDir := DefaultSystemDir;
      new;
      Reset();
    }

    /** Reset: drop every tier's contents. */
    method Reset()
      modifies this`config, this`remote, this`system
      ensures config == map[] && remote == map[] && system == map[]
    {
      config := map[];
      remote := map[];
      system := map[];
    }

    /** ConfigTags: the config tier, which GetTag consults after the
        system tier. */
    function ConfigTags(): (t: Tags)
      reads this
      ensures forall k, def :: k in t && k !in system ==> GetTag(k, def) == t[k]
    {
      config
    }

    /** RemoteTags: the remote tier, which GetTag consults last. */
    function RemoteTags(): (t: Tags)
      reads this
      ensures forall k, def :: k in t && k !in system && k !in config ==> GetTag(k, def) == t[k]
    {
      remote
    }

    /** SystemTags: the system tier, which overrides the other two. */
    function SystemTags(): (t: Tags)
      reads this
      ensures forall k, def :: k in t ==> GetTag(k, def) == t[k]
    {
      system
    }

    /** The combined tags: remote, then config, then system, later winning. */
    function Merged(): Tags
      reads this
    {
      remote + config + system
    }

    /** GetTag: system, then config, then remote, then the default. */
    function GetTag(key: string, def: string): (v: string)
      reads this
      ensures key in Merged() ==> v == Merged()[key]
      ensures key !in Merged() ==> v == def
    {
      if key in system then system[key]
      else if key in config then config[key]
      else if key in remote then remote[key]
      else def
    }

    /** SetTag: write into the system tier; return the previous value or "". */
    method SetTag(key: string, val: string) returns (existing: string)
      modifies this`system
      ensures system == old(system)[key := val]
      ensures existing == if key in old(system) then old(system)[key] else ""
      ensures forall def :: GetTag(key, def) == val
    {
      existing := if key in system then system[key] else "";
      system := system[key := val];
    }

    /** RemoveTag: delete from the system tier; return the previous value or "". */
    method RemoveTag(key: string) returns (existing: string)
      modifies this`system
      ensures system == old(system) - {key}
      ensures key !in old(system) ==> system == old(system)
      ensures existing == if key in old(system) then old(system)[key] else ""
      ensures forall def :: GetTag(key, def) ==
                            if key in config then config[key] else if key in remote then remote[key] else def
    {
      existing := if key in system then system[key] else "";
      system := system - {key};
    }

    /** GetTags: merge the tiers, keep what pick selects, then drop what
        omit selects. In regex mode a pattern that does not compile makes
        regexp.MustCompile panic, so callers pass compiling patterns. */
    method GetTags(regex: bool, pick: string, omit: string, engine: Regexp) returns (tags: Tags)
      requires regex && pick != "" ==> engine.compiles(pick)
      requires regex && omit != "" ==> engine.compiles(omit)
      ensures tags == Select(Merged(), regex, pick, omit, engine)
    {
      var combined := Overlay(map[], remote);
      combined := Overlay(combined, config);
      combined := Overlay(combined, system);
      SameTags(map[] + remote, remote);
      var pickFilter := k => Picked(regex, pick, k, engine);
      var omitFilter := k => !Omitted(regex, omit, k, engine);
      var picked := KeepWhere(combined, pickFilter);
      tags := KeepWhere(picked, omitFilter);
      SelectInTwoSteps(Merged(), regex, pick, omit, engine, pickFilter, omitFilter);
    }

    /** Every listed value is the one GetTag returns, and a listing with
        neither pick nor omit holds every key of the three tiers. */
    lemma ListingAgreesWithGetTag(regex: bool, pick: string, omit: string, engine: Regexp)
      ensures var listed := Select(Merged(), regex, pick, omit, engine);
              forall k :: k in listed ==> listed[k] == GetTag(k, "")
      ensures pick == "" && omit == "" ==>
              Select(Merged(), regex, pick, omit, engine).Keys == remote.Keys + config.Keys + system.Keys
    {
    }

    /** PrefixTags: the same tags with `prefix` put before every key; an
        empty prefix hands back the tags themselves. */
    method PrefixTags(tags: Tags, prefix: string) returns (r: Tags)
      ensures prefix == "" ==> r == tags
      ensures forall k :: k in tags ==> prefix + k in r && r[prefix + k] == tags[k]
      ensures forall k :: k in r ==> Strings.HasPrefix(k, prefix) && k[|prefix|..] in tags
      ensures |r| == |tags|
    {
      if prefix == "" {
        assert forall k :: prefix + k == k && k[|prefix|..] == k;
        return tags;
      }
      r := PrefixEach(tags, prefix);
    }

    /** SuffixTags: the same tags with `suffix` put after every key; an
        empty suffix hands back the tags themselves. */
    method SuffixTags(tags: Tags, suffix: string) returns (r: Tags)
      ensures suffix == "" ==> r == tags
      ensures forall k :: k in tags ==> k + suffix in r && r[k + suffix] == tags[k]
      ensures forall k :: k in r ==> Strings.HasSuffix(k, suffix) && k[..|k| - |suffix|] in tags
      ensures |r| == |tags|
    {
      if suffix == "" {
        assert forall k :: k + suffix == k && k[..|k| - |suffix|] == k;
        return tags;
      }
      r := SuffixEach(tags, suffix);
    }

    /** LoadFiles: read the config fragments and the two system files, and
        replace all three tiers together, only when every read succeeded. */
    method LoadFiles(fs: Os.FileSystem, codec: Codec) returns (err: Option<Error>)
      modifies this`config, this`remote, this`system
      ensures match Load(fs.disk, configDir, systemDir, codec)
              case Ok(t) => err == None && config == t.config && remote == t.remote && system == t.system
              case Err(e) => err == Some(e) && config == old(config) && remote == old(remote) && system == old(system)
    {
      var configData := LoadConfigDir(fs.disk, configDir, codec);
      if configData.Err? {
        return Some(configData.error);
      }

      var remoteFile := Paths.Join(systemDir, "remote.json");
      var systemFile := Paths.Join(systemDir, "system.json");

      var remoteData := LoadTierFile(fs.disk, remoteFile, codec);
      if remoteData.Err? {
        return Some(remoteData.error);
      }
      var systemData := LoadTierFile(fs.disk, systemFile, codec);
      if systemData.Err? {
        return Some(systemData.error);
      }

      config := configData.value;
      remote := remoteData.value;
      system := systemData.value;
      return None;
    }

    /** SaveFiles: encode both tiers first; then back up each existing
        target to its ".bak" sibling and overwrite the targets. */
    method SaveFiles(fs: Os.FileSystem, codec: Codec) returns (err: Option<Error>)
      modifies fs
      ensures Saved(fs.disk, err) == Save(old(fs.disk), systemDir, codec, remote, system)
    {
      var remoteFile := Paths.Join(systemDir, "remote.json");
      var systemFile := Paths.Join(systemDir, "system.json");

      var remoteJson := codec.marshal(remote);
      if remoteJson.Err? {
        return Some(remoteJson.error);
      }
      var systemJson := codec.marshal(system);
      if systemJson.Err? {
        return Some(systemJson.error);
      }

      if Os.Exists(fs.disk, remoteFile) {
        var remoteBackup := remoteFile + ".bak";
        var remoteBytes := Os.ReadFile(fs.disk, remoteFile);
        if remoteBytes.Err? {
          return Some(remoteBytes.error);
        }
        err := fs.WriteFile(remoteBackup, remoteBytes.value);
        if err.Some? {
          return;
        }
      }

      if Os.Exists(fs.disk, systemFile) {
        var systemBackup := systemFile + ".bak";
        var systemBytes := Os.ReadFile(fs.disk, systemFile);
        if systemBytes.Err? {
          return Some(systemBytes.error);
        }
        err := fs.WriteFile(systemBackup, systemBytes.value);
        if err.Some? {
          return;
        }
      }

      err := fs.WriteFile(remoteFile, remoteJson.value);
      if err.Some? {
        return;
      }
      err := fs.WriteFile(systemFile, systemJson.value);
    }

    /** UpdateRemote: poll the metadata service as Poll describes and, unless
        a call failed, make its last answer the remote tier. */
    method UpdateRemote(service: MetadataService, clock: Clock, timeout: int, retry: int)
      returns (err: Option<Error>)
      modifies this`remote, service, clock
      ensures var o := Poll(service.answer, old(service.calls), timeout, retry, 0, 0);
              && service.calls == o.calls
              && clock.now == old(clock.now) + o.elapsed
              && match o.result
                 case Err(e) => err == Some(e) && remote == old(remote)
                 case Ok(tags) => err == None && remote == tags
    {
      var res: Tags;
      var curInterval := Second;
      var maxInterval := MaxInterval;
      var startTime := clock.now;
      var untilTime := startTime + retry;
      ghost var k: nat := 0;
      ghost var outcome := Poll(service.answer, service.calls, timeout, retry, 0, 0);

      while true
        invariant Poll(service.answer, service.calls, timeout, retry, clock.now - startTime, k) == outcome
        invariant curInterval == Backoff(k)
        invariant k > 0 ==> clock.now <= untilTime
        invariant remote == old(remote)
        decreases if clock.now <= untilTime then untilTime - clock.now + 1 else 0
      {
        ghost var n := service.calls;
        ghost var elapsed := clock.now - startTime;
        var r := service.Fetch(timeout, clock);
        if r.Err? {
          return Some(r.error);
        }
        res := r.value;
        if |res| > 0 || clock.now - startTime > retry {
          break;
        }

        var interval := untilTime - clock.now;
        if interval > curInterval {
          interval := curInterval;
        }
        BackoffRange(k);
        assert interval == Min(Backoff(k), retry - (clock.now - startTime)) >= 0;
        assert Poll(service.answer, n, timeout, retry, elapsed, k)
            == Poll(service.answer, n + 1, timeout, retry, clock.now - startTime + interval, k + 1);
        clock.Sleep(interval);
        k := k + 1;

        curInterval := curInterval * 2;
        if curInterval > maxInterval {
          curInterval := maxInterval;
        }
      }

      remote := res;
      err := None;
    }
  }

  /** The loop of GetTags and LoadFiles that copies one map into another,
      overwriting keys already present. */
  method CopyInto(into: Tags, from: Tags) returns (r: Tags)
    ensures forall k :: k in r <==> k in into || k in from
    ensures forall k :: k in r ==> r[k] == if k in from then from[k] else into[k]
  {
    r := into;
    var todo := from.Keys;
    while todo != {}
      invariant todo <= from.Keys
      invariant forall k :: k in r <==> k in into || (k in from && k !in todo)
      invariant forall k :: k in r ==> r[k] == if k in from && k !in todo then from[k] else into[k]
      decreases |todo|
    {
      var key :| key in todo;
      r := r[key := from[key]];
      todo := todo - {key};
    }
  }

  /** Go's `for k, v := range from { into[k] = v }`, stated as the map union
      in which `from` wins. */
  method Overlay(into: Tags, from: Tags) returns (r: Tags)
    ensures r == into + from
  {
    r := CopyInto(into, from);
    SameTags(r, into + from);
  }

  /** Two maps with the same entries are equal. */
  lemma SameTags(a: Tags, b: Tags)
    requires forall k :: k in a <==> k in b
    requires forall k :: k in a ==> a[k] == b[k]
    ensures a == b
  {
  }

  /** The entries of `tags` whose key `keep` accepts. */
  function Keep(tags: Tags, keep: string -> bool): Tags
  {
    map k | k in tags && keep(k) :: tags[k]
  }

  /** A filtering loop of GetTags. */
  method KeepWhere(tags: Tags, keep: string -> bool) returns (r: Tags)
    ensures r == Keep(tags, keep)
  {
    r := map[];
    var todo := tags.Keys;
    while todo != {}
      invariant todo <= tags.Keys
      invariant forall k :: k in r <==> k in tags && k !in todo && keep(k)
      invariant forall k :: k in r ==> r[k] == tags[k]
      decreases |todo|
    {
      var key :| key in todo;
      if keep(key) {
        r := r[key := tags[key]];
      }
      todo := todo - {key};
    }
    SameTags(r, Keep(tags, keep));
  }

  /** Picking and then omitting is the listing filter. */
  lemma SelectInTwoSteps(merged: Tags, regex: bool, pick: string, omit: string, engine: Regexp,
                         pickFilter: string -> bool, omitFilter: string -> bool)
    requires forall k :: pickFilter(k) == Picked(regex, pick, k, engine)
    requires forall k :: omitFilter(k) == !Omitted(regex, omit, k, engine)
    ensures Keep(Keep(merged, pickFilter), omitFilter) == Select(merged, regex, pick, omit, engine)
  {
    SameTags(Keep(Keep(merged, pickFilter), omitFilter), Select(merged, regex, pick, omit, engine));
  }

  /** Once a prefix of the listing fails, the whole fold fails the same way. */
  lemma {:induction false} FoldConfigFailureSticks(d: Os.Disk, dir: string, entries: seq<Os.DirEntry>, n: nat, codec: Codec)
    requires n <= |entries|
    requires FoldConfig(d, dir, entries[..n], codec).Err?
    ensures FoldConfig(d, dir, entries, codec) == FoldConfig(d, dir, entries[..n], codec)
    decreases |entries| - n
  {
    if n < |entries| {
      assert entries[..n + 1][..n] == entries[..n];
      FoldConfigFailureSticks(d, dir, entries, n + 1, codec);
    } else {
      assert entries[..n] == entries;
    }
  }
}
