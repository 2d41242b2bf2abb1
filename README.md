# systags tag engine — a Dafny model

systags keeps a machine's tags: string keys with string values drawn from
three tiers.

- **config**: read-only JSON fragments in a config directory (`/etc/systags.d`).
- **remote**: tags fetched from the cloud metadata service and cached in
  `remote.json` under the system directory (`/var/lib/systags`).
- **system**: local overrides kept in `system.json` in the same directory.

The `Manager` merges the tiers; on a clash system wins over config, and
config over remote. It answers lookups and filtered listings and rewrites
keys with a prefix or suffix. It loads all three tiers from disk and saves
the two it owns, backing up the old files first. It refreshes the remote
tier by polling the metadata service with a bounded exponential backoff. The
`FormatEnv` formatter renders tags as shell assignments `KEY='value'`.

The project has one module per file:

- `types.dfy` (`Types`): tags, errors, `Option`, `Result`.
- `strings.dfy` (`Strings`): replacing every occurrence of a character and
  trimming a character, as the core's `strings.Replace` and `strings.Trim`
  calls do; and splitting on a separator, which is how this model reads the
  comma-separated names of exact mode (the core itself turns the commas into
  `|` with `strings.Replace`).
- `paths.dfy` (`Paths`): `filepath.Join` and `filepath.Ext`.
- `os.dfy` (`Os`): a disk as a map from paths to files and directories, with
  sets of paths whose reads or writes fail. It gives an existence test for
  the `os.Stat(...); err == nil` checks, `os.ReadDir` (sorted by name),
  `os.ReadFile`, and a `FileSystem` class whose `WriteFile` changes the disk.
- `remote.dfy` (`Remote`): a monotonic nanosecond `Clock` that `Sleep`
  advances, and a `MetadataService`. The service's n-th answer (tags or an
  error) and its duration are a function given to the model.
- `manager.dfy` (`Manager`): the `Manager` class and the specification
  functions its methods are proved against. `Load` and `Save` say what
  loading and saving do to a disk. `Poll` says how a refresh unfolds.
  `Select` says which tags a listing keeps.
- `formats.dfy` (`Formats`): `FormatEnv` and the registry of formatters.

Go map iteration order is unspecified, so every loop over a map picks its
next key with `:|`; each proof holds for every order. JSON encoding and
decoding are a `Codec` parameter. The regular-expression engine is a
`Regexp` parameter that says which patterns compile and which keys they
match.

## Model

| member | source | states |
|---|---|---|
| Manager.Manager.constructor | manager/manager.go:37-53 | NewManager: the config directory is /etc/systags.d, the system directory is /var/lib/systags, and all three tiers are empty |
| Manager.Manager.Reset | manager/manager.go:74-79 | all three tiers become empty maps |
| Manager.Manager.ConfigTags | manager/manager.go:326-329 | every config tag not overridden by the system tier is what GetTag returns for its key |
| Manager.Manager.RemoteTags | manager/manager.go:332-335 | every remote tag that neither system nor config overrides is what GetTag returns for its key |
| Manager.Manager.SystemTags | manager/manager.go:338-341 | every system tag is what GetTag returns for its key, whatever the other tiers hold |
| Manager.Manager.GetTag | manager/manager.go:441-462 | the value is the key's entry in the merge remote + config + system, where later tiers win; it is the default exactly when no tier has the key |
| Manager.Manager.SetTag | manager/manager.go:467-475 | the system tier gains key := val and nothing else changes; the result is the previous system value or ""; afterwards GetTag(key, def) is val for every default |
| Manager.Manager.RemoveTag | manager/manager.go:480-488 | the key leaves the system tier and nothing else changes (an absent key changes nothing); the result is the previous value or ""; afterwards GetTag falls back to config, then remote, then the default |
| Manager.Select | manager/manager.go:356-435 | the listing is a sub-map of the merged tags; a merged key is listed iff pick is empty or selects it, and omit is empty or does not select it; in exact mode the listed keys are among pick's comma-separated names and none of omit's; with no filters the listing is the whole merge |
| Manager.Manager.GetTags | manager/manager.go:350-436 | for patterns that compile, the result is exactly Select of the merged tiers |
| Manager.Manager.ListingAgreesWithGetTag | manager/manager.go:383-398 | every listed value is the one GetTag returns; an unfiltered listing holds exactly the union of the three tiers' keys |
| Manager.Overlay | manager/manager.go:131-134 | copying one map into another is the union in which the copied map wins |
| Manager.CopyInto | manager/manager.go:383-398 | after the copy loop, a key is present iff it was in either map, with the copied map's value when it had one |
| Manager.KeepWhere | manager/manager.go:404-417 | the filter loop keeps exactly the entries whose key the filter accepts |
| Manager.SelectInTwoSteps | manager/manager.go:400-435 | picking and then omitting gives the listing filter Select |
| Manager.Manager.PrefixTags | manager/manager.go:492-505 | an empty prefix returns the tags themselves; otherwise every tag sits under prefix + key, every result key is the prefix + a tag key, and no two keys collide (same size) |
| Manager.PrefixEach | manager/manager.go:498-504 | the loop puts each tag under prefix + key and nothing else, one entry per tag |
| Manager.Manager.SuffixTags | manager/manager.go:509-522 | an empty suffix returns the tags themselves; otherwise every tag sits under key + suffix, every result key is a tag key + the suffix, and the size is kept |
| Manager.SuffixEach | manager/manager.go:515-521 | the loop puts each tag under key + suffix and nothing else, one entry per tag |
| Manager.Manager.LoadFiles | manager/manager.go:84-183 | when Load of the disk succeeds, the three tiers become the loaded ones and no error is returned; otherwise the first error is returned and no tier changes |
| Manager.LoadConfigDir | manager/manager.go:92-136 | the config loop computes LoadConfig: empty when the directory cannot be listed, else the fold of the *.json fragments in listing order |
| Manager.LoadTierFile | manager/manager.go:142-158 | a missing file gives an empty tier; otherwise the file is read and decoded, and a read or decode error is the result |
| Manager.FoldConfigNext | manager/manager.go:100-135 | folding one more listing entry is one FoldEntry step |
| Manager.FoldConfigOk | manager/manager.go:100-135 | the config fold succeeds iff every non-directory *.json entry of the listing can be read and decoded; other entries are never read |
| Manager.FoldConfigCovers | manager/manager.go:131-134 | every key of every fragment is in the config tier |
| Manager.FoldConfigSourced | manager/manager.go:131-134 | every key of the config tier comes from some fragment of the listing that holds it |
| Manager.FoldConfigLastWins | manager/manager.go:131-134 | a key takes its value from the last fragment, in listing order, that holds it |
| Manager.FoldConfigFailureSticks | manager/manager.go:119-129 | once a fragment fails, the whole load fails with that error |
| Manager.LoadDefaults | manager/manager.go:93-95 | a config directory that is missing, not a directory or unreadable gives an empty config tier; a missing remote or system file gives an empty tier |
| Manager.Manager.SaveFiles | manager/manager.go:189-266 | the new disk and the error are those of Save: encode both tiers, back up remote, back up system, write remote, write system, stopping at the first error |
| Manager.SavePathsDistinct | manager/manager.go:193-195 | remote.json and system.json, and their .bak siblings, are distinct paths |
| Manager.SaveEncodeFailure | manager/manager.go:197-207 | when either encoding fails, nothing is written and the error of the first failing encoding is returned |
| Manager.BackupFrame | manager/manager.go:209-227 | a backup changes no path but the .bak sibling, and no fault set |
| Manager.WriteFrame | manager/manager.go:251-255 | a write changes no path but its target, and no fault set |
| Manager.SaveFrame | manager/manager.go:189-266 | whatever the outcome, saving changes no path except the two targets and their .bak siblings |
| Manager.SaveSkipsAbsentBackup | manager/manager.go:209-247 | a target that did not exist is not backed up: whatever the outcome, its .bak sibling is left as it was |
| Manager.SaveSuccess | manager/manager.go:209-263 | after a successful save, each target holds its new encoding, and each target that existed before has its old contents in its .bak sibling |
| Manager.SaveThenLoad | manager/manager.go:139-176 | after a successful save, when the codec round-trips the tiers and the targets are readable, loading the remote and system files gives back the saved tiers |
| Manager.BackoffRange | manager/manager.go:286-318 | every sleep bound is between one and five seconds |
| Manager.BackoffValues | manager/manager.go:314-318 | the sleep bounds are 1s, 2s, 4s and then 5s for good |
| Manager.PollOutcome | manager/manager.go:295-319 | the service is called at least once; the refresh ends with the last answer, and every earlier answer was an empty map; an Ok result is non-empty or comes after the retry window; no call but the first starts after the deadline; with no time left the service is called once |
| Manager.Manager.UpdateRemote | manager/manager.go:274-323 | the calls made and the time spent are those of Poll from the current call count; an error leaves the remote tier unchanged and is returned; otherwise the remote tier becomes the last answer |
| Remote.MetadataService.Fetch | manager/manager.go:296-299 | one call: the call count goes up by one, and the clock advances by the call's duration |
| Remote.Clock.Sleep | manager/manager.go:312 | sleeping advances the clock by a positive duration and not at all otherwise |
| Os.ReadDir | manager/manager.go:93 | listing succeeds iff the path is a readable directory; it lists each child once, sorted by name, and each entry's isDir flag says whether that child is a directory |
| Os.SortNames | manager/manager.go:93 | the names in strictly increasing order, each exactly once |
| Os.LeastExists | manager/manager.go:93 | every non-empty set of names has a least one in Go's string order |
| Os.ReadFile | manager/manager.go:119 | reading succeeds iff the path is a readable file, and gives its bytes |
| Os.WriteTo | manager/manager.go:223 | writing succeeds iff the path is not a directory and is writable, and then replaces only that path's contents |
| Os.FileSystem.WriteFile | manager/manager.go:252-255 | the disk becomes WriteTo's result on success and is unchanged on error |
| Paths.Ext | manager/manager.go:108 | the extension is empty or a suffix of the name that starts with '.', holding no other '.' and no '/'; it is empty only when every '.' of the path is followed by a '/', that is, the last element has no '.' |
| Paths.JsonExtension | manager/manager.go:107-111 | an entry passes the ".json" test iff its name ends in ".json" |
| Strings.SplitJoin | manager/manager.go:361-365 | splitting the comma-joined names gives back the names; exact-mode patterns are read as these lists |
| Strings.JoinSplit | manager/manager.go:361-365 | joining the parts of a split gives back the pattern |
| Strings.ReplaceAllAbsent | manager/formats.go:82 | replacing a character that does not occur changes nothing |
| Strings.TrimLeft | manager/formats.go:96 | trimming removes only leading spaces, and all of them |
| Strings.TrimRight | manager/formats.go:96 | trimming removes only trailing spaces, and all of them |
| Formats.EnvChar | manager/formats.go:70-73 | a normalised character is in A-Z, 0-9 or '_'; such characters are kept, lower-case ASCII letters become upper case, dotless i becomes I and long s becomes S, and every other character becomes '_' |
| Formats.EnvKey | manager/formats.go:70-73 | the normalised key has the key's length and uses only A-Z, 0-9 and '_' |
| Formats.EnvKeyIdempotent | manager/formats.go:70-73 | normalising a normalised key changes nothing |
| Formats.UnescapeEscape | manager/formats.go:80-82 | the shell reads the escaped value between single quotes as the original value |
| Formats.EscapeWithoutQuote | manager/formats.go:82 | a value without a single quote is not changed |
| Formats.EnvExamples | manager/formats.go:59-82 | My.Key becomes MY_KEY; ıd-ſet becomes ID_SET; the keys "" and 1abc are dropped and _1 is kept; it's is escaped as it'\''s |
| Formats.FilterOneStep | manager/formats.go:63-85 | one more tag through the filter loop keeps the Filtered invariant |
| Formats.FewerNormalised | manager/formats.go:84 | deduplication by normalised key never gives more entries than there were tags |
| Formats.FilteredKeys | manager/formats.go:65-78 | every filtered key is non-empty and starts with A-Z or '_' |
| Formats.FilterTags | manager/formats.go:61-85 | every kept tag appears under its normalised key; every entry is the escaped value of a kept tag with that normalised key; there are no more entries than tags |
| Formats.Concatenate | manager/formats.go:86-94 | the second loop visits each filtered key exactly once and builds each entry followed by a space, in the order visited; the output is empty iff there is nothing to write |
| Formats.TerminatedJoined | manager/formats.go:86-96 | the space-terminated form is the space-joined form plus one space |
| Formats.JoinedEnds | manager/formats.go:86-94 | the joined output starts with the first key's first character and ends with a quote |
| Formats.TrimTerminated | manager/formats.go:96 | trimming spaces removes exactly the final separator |
| Formats.JoinedShape | manager/formats.go:86-96 | the output has no space at either end, and is empty iff no tag was kept |
| Formats.FormatEnv | manager/formats.go:56-97 | the result is the KEY='value' entries of the filtered tags joined by single spaces, each filtered key once; the error is always nil; the output is empty iff no tag is kept, and otherwise starts with no space and ends with a quote |
| Formats.NoneKept | manager/formats.go:61-85 | the filtered map is empty iff no tag has a non-empty key whose normal form does not start with a digit |
| Formats.RegistryNames | manager/formats.go:150-158 | the registry offers exactly json, yaml, yml, toml, env, telegraf and consul; yaml and yml are the same formatter |

## Left out

- The metadata fetch (`getAwsTags` in `manager/aws.go`) is not part of this model. Each call is an answer and a duration supplied by `MetadataService.answer`.
- A fetch is assumed to take at least one nanosecond. Time is integer nanoseconds, and the float doubling of `curInterval` is exact integer doubling.
- JSON encoding and decoding are the `Codec` parameter. `SaveThenLoad` assumes the round trip as a hypothesis. `MarshalIndent`'s layout is not modelled.
- A JSON `null` decodes in Go to a nil map. A later `SetTag` on that nil system tier would panic. The codec here always returns a map.
- The YAML, TOML, Telegraf and Consul formatters are single library calls. They appear only as registry entries.
- Regular expressions are the `Regexp` parameter. A pattern that does not compile makes `regexp.MustCompile` panic, so `GetTags` requires compiling patterns in regex mode.
- Exact mode is modelled as membership in the comma-separated names. This is what the quoted, anchored alternation matches.
- Formats.Upper: only ASCII letters, dotless i and long s are upper-cased. Every other letter's upper case is outside A-Z and becomes '_' either way.
- `filepath.Join` is concatenation with "/". Path cleaning ("..", doubled or trailing separators) is not modelled.
- The logger (`SetLogger`, `GetLogger`, debug output) is left out, because it has no effect on tags.
- File permission bits (0666) are left out. Partial writes and crashes during a save are not modelled either: each write succeeds or fails whole.
- Maps are values here. Go's getters and an empty-affix `PrefixTags`/`SuffixTags` hand back the same map, which callers could mutate. That aliasing is not captured.
- `FormatEnv`'s key and value are Dafny characters. Go indexes `k[0]` as a byte; after normalisation every character is ASCII, so both agree.
- Formats.FormatEnv: which of several tags whose keys normalise alike supplies the value depends on Go's map order. The contract says only that it is one of them.
- Formats.FormatEnv: the entry order is Go's map order, so the contract states only that each filtered key appears once.
- The command-line layer (`command/`, `main.go`) is not part of this model.
- The registry has no `cmd` or `systemd` formatter, and `env` renders `KEY='value'` entries joined by single spaces, without `export`.
- Remote.Clock.Sleep: sleeps are exact, and no time passes between the deadline check and the computation of the next interval. Go's `time.Sleep` only guarantees that at least the requested time passes, and the clock moves on between `time.Since` and `time.Until`. PollOutcome's clause that no call but the first starts after the deadline depends on both assumptions; in Go a late wake-up can start one more fetch just past the deadline.
- Os.Exists: only a missing path counts as absent. Go's `os.Stat(...); err == nil` checks treat every Stat error as absence, including a system directory the process cannot search. In that case Go's LoadFiles returns empty remote and system tiers with no error, and SaveFiles skips the backups; the model cannot represent this case.
