# A model of the EMLy updater

EMLyUpdater is a Windows service that keeps the EMLy application, and itself, up to date on the machines of a
company. It takes its policy from a JSON document with per-host overrides, downloads and runs setups, accepts
restart and reboot commands over a WebSocket channel, and has to survive crashes and restarts at any point,
its own updates included. The project models the parts where that is hard:

- **Policy algebra** - `Json`, `JsonPaths`, `MergePatch`, `PolicySchema`, `PolicyComplete`, `PolicySites`,
  `PolicyOverrides`, `PolicyParse`, `PolicyRules` (the rules of a document, member by member), `PolicyHosts` (which
  overrides a host gets, and the value each path ends with), `PolicyTyped`, `PolicyWritten`, `PolicyCache`,
  `PolicyLegacy`, `PolicyExample`. A document is filled from defaults, patched per host, validated and turned into
  a server chain. The central results are that filling before patching loses nothing, not even with a trip through
  the typed document in between, and that patches which are valid one at a time are valid in every subset, so
  evaluating an accepted document for a host never falls back. The comment above `Effective`
  (internal/policy/match.go:22-26) expects that some subsets may fail; the code cannot produce one. The cache, on the
  other hand, is read back exactly when every override is unconditional, because `all` is always written and a
  written `false` is refused.
- **Restart and reboot commands** - `PowerGate` (the fields one mutex guards), `PowerProtocol` (every
  interleaving of one poll goroutine and any number of command goroutines, with a clock), `PowerHistory` (what a run
  tells about the flag and the records), `CommandRing` (deduplication), `CommandVerdicts` (the same with verdicts that
  come late) and `RestartDedupe` (the ring of the next process).
- **Self-update** - `SelfUpdate`: attempts recorded before launch, over restarts and changing builds.
- **Setup integrity** - `Download` (a file system with every crash point), `Installer` (who runs what). The comment
  above `install` (internal/service/service.go:848-851) promises that an offline retry falls back to the local copy of
  the setup; the code has swept that copy away by then, and the retry runs it only if it could not be deleted.
- **The rest of the state** - `StateStore` (with `Records`), `ConfigRevision`, `Resolver`, `WsSession`, `Ulid`.

Code that changes state is written as classes and loops, each method proved equal to a function of the old state;
the lemmas are about those functions and about whole runs of them. Foreign steps (clock, network, file system
errors, hashing, time and URL parsing, version order) are parameters that may answer anything.

`dafny verify dfyconfig.toml` checks everything.

## Model

| member | source | states |
|---|---|---|
| MergePatch.MergePatch | internal/policy/merge.go:8-27 | The loop over a patch whose keys come in any order computes the recursive merge of RFC 7386, section 2: null deletes, a value merges, every other key stays |
| MergePatch.StripNulls | internal/policy/merge.go:34-46 | The loop, in any key order, drops exactly the null members, at every depth reachable through objects |
| MergePatch.MergeTwice | internal/policy/merge.go:8-27 | Applying one patch twice is applying it once, for any target and patch |
| MergePatch.DisjointPatchesCommute | internal/policy/merge.go:8-27 | Object patches that name no common key commute |
| MergePatch.StripIsNullFree | internal/policy/merge.go:34-46 | No null is left under any object member after stripping |
| MergePatch.NullFreeIsFixed | internal/policy/merge.go:34-46 | Stripping changes nothing that has no null, so it is idempotent |
| MergePatch.StrippedPatchKeepsKeys | internal/policy/merge.go:29-46 | A stripped patch never removes a key of an object |
| MergePatch.MergeKeepsNullFree | internal/policy/merge.go:8-46 | Null-free patches of null-free values leave null-free values, so completing adds no null |
| JsonPaths.PatchSets | internal/policy/merge.go:8-27 | A scalar or list that a patch has at a path is what stands at that path afterwards, whatever was there |
| JsonPaths.PatchDeletes | internal/policy/merge.go:14-16 | A null that a patch has at a path takes the member away |
| JsonPaths.PatchKeeps | internal/policy/merge.go:8-27 | A path the patch does not name keeps its value, and stays missing if it was |
| JsonPaths.StripKeeps | internal/policy/merge.go:34-46 | Stripping leaves every scalar and list at its path and every missing member missing |
| PolicyComplete.CompleteDocument | internal/policy/parse.go:146-174 | The three passes (copy, neutral values, layering) give: the five copied keys as they are; {} for missing sites, host integrity switched off when missing, the default ipcProtocol when missing; in each of the five sections a scalar or list of the document at its path and the default where nothing leads to it, or the default section where the document has no object; and no other key |
| PolicyComplete.CompleteIsCompletedFrom | internal/policy/parse.go:146-174 | The completing function the other results speak of has these members too, for every document and all defaults |
| PolicyComplete.FillTwice | internal/policy/parse.go:167-173 | Filling an already filled value from the same defaults changes nothing |
| PolicyComplete.AlikeAfterPatch | internal/policy/merge.go:8-27 | Simulation step: if filling cannot tell two values apart, it cannot after the same patch either |
| PolicyComplete.FillingCommutesWithPatching | internal/policy/parse.go:143-174 | For every raw document, all defaults and every list of patches that leave hostIntegrity and ipcProtocol alone: completing, patching and completing again equals patching the raw document and completing once |
| PolicyComplete.CommutesExactlyOutsideTwoSections | internal/policy/parse.go:148-166 | Patches of one section obey that law for all documents if and only if the section is neither of the two; the document's other unpatchable sections do obey it |
| PolicySites.CheckSites | internal/policy/parse.go:439-461 | The loop with its set of seen labels accepts exactly when every site is well formed, every reference resolves and no two keys name one controller in lower case |
| PolicySites.FindSite | internal/policy/match.go:142-158 | Whatever the map order, the answer is one the first enabled entry of the host's controller can give |
| PolicySites.SiteIsUniqueExactlyWhen | internal/policy/match.go:142-158 | All orders give one site if and only if no two enabled entries of the controller exist of which one is on the host's network |
| PolicySites.ValidSiteIsUnique | internal/policy/parse.go:439-448 | Validation makes the site decision independent of the map order wherever the lower case it compares by separates no labels the lookup folds together |
| PolicySites.ValidSiteIsUniqueExactlyWhen | internal/policy/match.go:142-158 | In a validated topology a host's site is independent of the order if and only if no two enabled entries of its controller differ in lower case alone while the host is on the network of one |
| PolicySites.LongSIsAmbiguous | internal/policy/parse.go:564-574 | Concrete gap: sites for the letter s and the long s are accepted together and folded together, and a host's site depends on the order |
| PolicySites.DuplicateControllersAmbiguous | internal/policy/match.go:142-158 | Without that rule two entries of one controller give two different sites |
| PolicySites.ChainResolves | internal/policy/match.go:164-171 | In a valid topology every host's chain is not empty and names only existing servers with valid URLs |
| PolicySites.HostChain | internal/policy/match.go:142-171 | A host whose controller has one enabled site, on whose network it is, gets that site and as chain its base server followed by its backups in order; a host that is on the network of no enabled site of its controller gets exactly the default server |
| PolicyOverrides.ParseOverrides | internal/policy/parse.go:217-328 | Returns a list exactly when each entry parses on its own and no id repeats, and then holds those entries in order |
| PolicyRules.OverrideRules | internal/policy/parse.go:230-268 | An entry parses exactly when it has a non-empty id, a valid match, no except or a valid one, no expiry or a readable one, and a patch of patchable sections; the override holds what the entry says |
| PolicyRules.SelectorIsRead | internal/policy/document.go:236-243 | Each list of a selector is read from its own member, and `all` from its own |
| PolicyRules.SelectorShape | internal/policy/document.go:236-243 | A value decodes as a selector exactly when it is an object, `all` a flag and each of the five lists a list of texts |
| PolicyRules.AllSelectorRules | internal/policy/parse.go:293-312 | A selector with a non-null `all` is valid exactly where `all` is allowed, is true and no other member is non-null |
| PolicyRules.ListSelectorRules | internal/policy/parse.go:277-327 | Any other is valid exactly when it is an object, some list is not empty and all subnets are valid |
| PolicyParse.AcceptedExactlyWhen | internal/policy/parse.go:77-131 | A document is accepted exactly when its schema version is 1, the completed document is valid, every override parses, no id repeats and each patch alone gives a valid document |
| PolicyParse.Parse | internal/policy/parse.go:77-131 | Returns the accepted document with its overrides, and nothing exactly when the document cannot be accepted |
| PolicyRules.DocumentRules | internal/policy/parse.go:367-523 | A document is valid exactly when its head, servers and sites, ipcProtocol, hostIntegrity and its five sections are |
| PolicyRules.HeadRules | internal/policy/parse.go:371-380 | Whole numbers for version and revision, the revision not negative, and a readable time of generation |
| PolicyRules.TopologyRules | internal/policy/parse.go:391-461 | There are servers, with names and valid URLs; the default server is one of them; every site has a name no other has in lower case |
| PolicyRules.SiteRules | internal/policy/parse.go:449-460 | A site has subnets, all valid, and its base server and backups exist |
| PolicyRules.TopologyIsRead | internal/policy/document.go:36-62 | The topology of a document is its servers, sites and default server |
| PolicyRules.SiteIsRead | internal/policy/document.go:120-131 | A site is read from its own members and is enabled unless it says otherwise |
| PolicyRules.IpcRulesExactly | internal/policy/parse.go:414-437 | A well-typed ipcProtocol is valid exactly when version keys are positive numbers, all four bounds of a version are readable, and the default version, 0 when omitted, is listed and not disabled |
| PolicyRules.IpcShape | internal/policy/document.go:96-118 | The types ipcProtocol must have |
| PolicyRules.HostIntegrityRules | internal/policy/document.go:133-145 | The types hostIntegrity must have |
| PolicyRules.ControlRules | internal/policy/parse.go:463-478 | Readable expiries and a known mode; the mode is required |
| PolicyRules.UpdaterRules | internal/policy/parse.go:480-502 | The seven members of the section, each with its bounds |
| PolicyRules.LoggingRules | internal/policy/parse.go:504-515 | A known level, sizes from 1 to 100 and backups from 0 to 50 |
| PolicyRules.ClientWsRules | internal/policy/parse.go:517-521 | Only the six known commands |
| PolicyOverrides.DryRunOverrides | internal/policy/parse.go:333-354 | The single pass accepts exactly when each override alone builds and, for several, all of them in order build |
| PolicyOverrides.PatchedAccepts | internal/policy/parse.go:367-523 | By induction on the schema: a patch that gives an accepted value from one start gives one from every accepted start |
| PolicyOverrides.OneMorePatch | internal/policy/parse.go:367-523 | A document that is valid stays valid under a further patch that was valid alone, sections and references together |
| PolicyOverrides.SubsetsBuild | internal/policy/parse.go:330-354 | If the raw document builds and each patch alone builds, every subset in list order builds; nothing is asked of the defaults |
| PolicyOverrides.CombinedDryRunIsRedundant | internal/policy/parse.go:346-353 | The final dry run of all overrides together refuses nothing the single ones accepted |
| PolicyOverrides.Effective | internal/policy/match.go:27-58 | Unless the call falls back, the ids applied are those of the unexpired overrides whose match names the host and whose except does not, in list order, and the document is their patches merged in that order and completed; it falls back, to the global document, exactly when that does not build |
| PolicyOverrides.ChosenExactlyWhen | internal/policy/match.go:27-44 | An override is chosen exactly when it has not expired, its match names the host and its except does not |
| PolicyHosts.HwidsName | internal/policy/match.go:62-106 | A list of hardware ids names exactly the hosts whose hardware id folds to one of them |
| PolicyHosts.HostnamesName | internal/policy/match.go:62-106 | A list of host names names exactly the hosts whose host name folds to one of them |
| PolicyHosts.DcsName | internal/policy/match.go:62-94 | A list of domain controllers names exactly the hosts whose controller has the folded leading label of one of them |
| PolicyHosts.SubnetsName | internal/policy/match.go:108-121 | A list of subnets names exactly the hosts with an address in one of them |
| PolicyHosts.DomainsName | internal/policy/match.go:62-106 | A list of domains names exactly the hosts whose domain folds to one of them |
| PolicyHosts.ListsAreAnded | internal/policy/match.go:62-94 | Several lists name the hosts that each of them names; an empty list does not restrict |
| PolicyHosts.ExpiresExactlyWhen | internal/policy/match.go:123-137 | A readable expiry has passed from that very time on; one that is missing or unreadable never passes |
| PolicyHosts.AppliedExactlyWhen | internal/policy/match.go:27-44 | In an accepted document the id of an override is applied to a host exactly when that override has not expired, matches and does not except it |
| PolicyHosts.LastPatchWins | internal/policy/match.go:33-44 | Of several patches in order the last one that sets a path decides its value |
| PolicyHosts.EffectiveIsLastOverride | internal/policy/match.go:27-58 | At every path of a section the effective document has the value of the last applied override that sets it |
| PolicyHosts.EffectiveIsGlobal | internal/policy/match.go:27-58 | Where no applied override touches a path it has the value of the document, or the default where the document has none |
| PolicyHosts.EffectiveDefaultServer | internal/policy/match.go:27-58 | The default server is that of the last applied override that sets one, or the document's |
| PolicyOverrides.NeverFallsBack | internal/policy/match.go:45-54 | For an accepted document, every host and every time the combination builds, and all sections outside the patchable ones are the global document's |
| PolicyOverrides.OverridesApplyToCompleted | internal/policy/match.go:27-58 | For an accepted document and every host and time, applying the overrides to the completed document gives the effective document that applying them to the document as sent gives |
| PolicyOverrides.EffectiveChainResolves | internal/policy/match.go:160-171 | Every name in the chain of any host of an accepted document is a server of the global document |
| PolicyTyped.TypedTwice | internal/policy/document.go:36-62 | Decoding into the structs and writing out is idempotent on every section |
| PolicyTyped.AcceptsTyped | internal/policy/parse.go:367-523 | The field rules accept a value exactly when they accept what is written out for it |
| PolicyTyped.TypedAfterPatch | internal/policy/merge.go:8-27 | Simulation step: values that are written out alike after filling still are after the same patch |
| PolicyTyped.TypedFillingCommutesWithPatching | internal/policy/parse.go:143-192 | For patchable patches: completing, decoding, writing out, patching and completing again is written out as patching the raw document and completing once is |
| PolicyTyped.ValidTyped | internal/policy/parse.go:367-523 | A completed document is valid exactly when its written-out form is, references and IPC rules included |
| PolicyWritten.WrittenAt | internal/policy/parse.go:179-192 | At every path of an accepted value: omitted flags, texts and numbers are written as their zero value, pointers and lists as null, minutes clamped, everything else as it was, and nothing the schema does not name |
| PolicyWritten.WrittenInterval | internal/policy/parse.go:382-386 | The refresh interval is the document's moved between 1 and 1440 minutes, and 1 when omitted |
| PolicyCache.SelectorRoundTrip | internal/policy/document.go:236-243 | Decoding a written selector gives the selector back |
| PolicyCache.SavedSelectorValid | internal/policy/parse.go:298-312 | Any written selector is refused on reading unless it is a bare `all` in `match` |
| PolicyCache.HostnameSelectorIsLost | internal/service/remoteconfig.go:251-259 | Smallest loss: a selector of one host name is accepted as served and refused as cached |
| PolicyCache.SavedOverride | internal/service/remoteconfig.go:251-259 | A written override is read back as itself when unconditional and refused otherwise |
| PolicyCache.CacheIsReadBackExactlyWhen | internal/service/remoteconfig.go:66-74 | The typed form of an accepted document, as saved, is accepted at the next start if and only if all its overrides are unconditional |
| PolicyCache.OneHostOverrideLosesCache | internal/policy/parse.go:277-312 | From every accepted document, replacing its overrides by one that patches nothing but names a host gives an accepted document whose cache no restart can read |
| PolicyCache.CacheKeepsEffectivePolicy | internal/service/remoteconfig.go:251-265 | A saved typed document that is read back gives every host at every time the typed policy it had before the restart |
| PolicyExample.MinimalIsAccepted | internal/policy/parse.go:77-131 | A head, one server and a default server are accepted over defaults with a one-version IPC table, so the results about accepted documents have instances |
| PolicyLegacy.CutPath | internal/policy/legacy.go:87-91 | The base plus the manifest path is the URL again, and no base is found only when there is none |
| PolicyLegacy.FromLegacy | internal/policy/legacy.go:80-122 | The default policy has one server per configured URL, the documented default server and one site per configured controller with the fallbacks in order |
| PolicyLegacy.LegacyChainsResolveExactlyWhen | internal/policy/legacy.go:98-122 | All hosts' chains resolve if and only if the external or the internal URL is set |
| PolicyLegacy.ValidatedConfigResolves | internal/config/config.go:257-269 | A validated config.ini gives every host a chain of existing servers |
| PolicyLegacy.UrlIsKeptExactlyWhen | internal/policy/match.go:177-188 | A server is asked at the very URL config.ini names, if and only if that URL is not the bare manifest path |
| PolicyLegacy.MappedHostAsks | internal/policy/legacy.go:105-122 | A host whose domain controller config.ini maps once, on one of its networks, asks the internal URL, the backup and the external one, in this order and as far as they are set |
| PolicyLegacy.UnmappedHostAsks | internal/policy/legacy.go:97-103 | Every other host asks one URL: the internal one where no external one is set, or where it is the primary and no controller is mapped, and the external one otherwise |
| PolicyLegacy.LegacySiteCanBeAmbiguous | internal/config/primary.go:41-77 | config.ini compares whole controller names, the lookup only first labels, so the site of a host can still depend on map order |
| PowerGate.Updater.DestructivePending | internal/service/clientpower.go:155-184 | Reading the flag lowers it, and takes its record off disk, exactly at or past the deadline |
| PowerGate.Updater.BeginInstall | internal/service/clientpower.go:82-91 | Claims the machine unless a committed command holds it; a refusal changes nothing but an expiry |
| PowerGate.Updater.EndInstall | internal/service/clientpower.go:96-98 | Gives back one claim and touches nothing else |
| PowerGate.Updater.CommitDestructive | internal/service/clientpower.go:109-120 | Commits exactly when no claim is held, whether or not another command is committed |
| PowerGate.Updater.AdmitDestructive | internal/service/clientpower.go:54-72 | Admits exactly when nothing is installing, nothing is committed after expiry, and no active user forbids it |
| PowerGate.Updater.RunDestructive | internal/service/clientpower.go:208-262 | The action is attempted only with the id on disk; the record and the flag stay exactly when it went through; the deadline follows the verb, the delay and the user |
| PowerProtocol.RunKeepsInvariant | internal/service/clientpower.go:82-262 | Every interleaving keeps: claims counted, the flag owned by a committed command, and for each command goroutine where its record must be |
| PowerProtocol.SetupsExcludeCommands | internal/service/clientpower.go:82-120 | In every interleaving a held claim and a committed command exclude each other, and installing is the number of claims not given back |
| PowerProtocol.InstallBlockedExactlyUntilDeadline | internal/service/clientpower.go:82-163 | In every interleaving an install is refused if and only if a command holds the flag and its own commit's deadline has not come |
| PowerProtocol.NoCommitAfterLaunch | internal/service/selfupdate.go:244-335 | After a launched self-update nothing is committed again in that process |
| PowerProtocol.UndisturbedCommand | internal/service/clientpower.go:208-262 | With no other step in between, a command's steps end as runDestructive does: scheduled with flag, deadline and record exactly when record, commit and action all succeed, and otherwise without its record |
| PowerHistory.ActsRecordedExactlyUnlessExpired | internal/service/clientpower.go:208-262 | When the restart or reboot is attempted its id is on disk if and only if nobody has read the flag at or past its deadline while it held it |
| PowerHistory.RecordedExactlyUnlessExpired | internal/service/clientpower.go:155-184 | The same for as long as the process lives after the action went through, and equivalently: the id holds the flag or lost it to another command |
| PowerHistory.ActsUnrecorded | internal/service/clientpower.go:155-184 | Concrete run: a restart whose deadline passes and is noticed before it is attempted is attempted without a record |
| PowerHistory.SlowRebootLosesRecord | internal/service/clientpower.go:155-184 | Concrete run: a reboot that went through but takes longer than its grace leaves no record |
| PowerHistory.CommitTakesFlagExactlyWhen | internal/service/clientpower.go:109-120 | Over every run a commit takes the flag from another command if and only if that one committed after this one was admitted and its flag is still up |
| PowerProtocol.RecordsLeftBehind | internal/service/clientpower.go:126-175 | With all quiet, a command's record is on disk if and only if its action went through and another command took the flag from it |
| PowerProtocol.SerialRunsCleanUp | internal/service/clientpower.go:126-262 | When commands do not overlap, all quiet means that no record of this process is left |
| PowerProtocol.OverlappingCommits | internal/service/clientpower.go:109-120 | Concrete run: a restart and a reboot in a minute, admitted before either commits, are both committed |
| PowerProtocol.OverlapLeavesRecord | internal/service/clientpower.go:155-184 | Concrete run from there: after both deadlines the restart's record is still on disk |
| CommandRing.Commands.Add | internal/service/clientcmd.go:61-74 | Appends the id without a result and drops the oldest id with its result and refusal past 64 |
| CommandRing.Commands.Deliver | internal/service/clientcmd.go:159-227 | Known ids are answered from memory and change nothing; new ids are remembered with their verdict; an empty id never reaches the ring |
| CommandRing.Commands.Seed | internal/service/clientcmd.go:146-155 | The ring of the next process holds the ids on disk in their order, none of them when the file cannot be read |
| CommandRing.RingIsWindow | internal/service/clientcmd.go:54-99 | Over any trace the ring is the window of the last 64 new ids with their verdicts and results, and ids repeat only 64 apart |
| CommandRing.ExecutedOncePerStay | internal/service/clientcmd.go:172-186 | Between two executions of one id at least 64 other ids are added |
| CommandRing.RedeliveryReplays | internal/service/clientcmd.go:172-185 | Inside the window a redelivery replays the first refusal, or acceptance with the stored result; outside it gets a fresh verdict |
| CommandRing.SeededIdIsDuplicate | internal/service/clientcmd.go:146-155 | A seeded id is confirmed as a duplicate and not executed while fewer than 64 newer ids followed |
| CommandVerdicts.RingHoldsLastAdds | internal/service/clientcmd.go:61-74 | Whatever verdicts and results come in between, the ids held are the last 64 added |
| CommandVerdicts.RefusalReplayedExactlyWhen | internal/service/clientcmd.go:172-194 | A redelivery replays the refusal its id was given if and only if fewer than 64 other ids were added between the id's own add and its refusal |
| CommandVerdicts.LateRefusalGoesStale | internal/service/clientcmd.go:92-99 | Otherwise the next delivery gets a new verdict, and once that one is accepted all redeliveries are told the old refusal |
| CommandVerdicts.AcceptanceReplayedExactlyWhen | internal/service/clientcmd.go:172-186 | An accepted delivery is confirmed to its redeliveries if and only if no late refusal of an earlier stay was waiting, and none is after a run of timely refusals |
| CommandVerdicts.RefusalsStayInsideExactlyWhen | internal/service/clientcmd.go:92-99 | Along a run the refusals stay within the ring if and only if each came while its id was among the last 64 added |
| CommandVerdicts.StaleRefusalStays | internal/service/clientcmd.go:61-74 | A refusal outside the ring is never dropped until its id is delivered again |
| CommandVerdicts.DeliveryIsArriveAndJudge | internal/service/clientcmd.go:186-194 | A delivery in one step is the two steps with nothing in between |
| RestartDedupe.RecordsStayDistinct | internal/service/clientpower.go:208-262 | No interleaving writes one id twice, so the records can seed a ring |
| RestartDedupe.CommandIsNotRepeated | internal/service/service.go:401-406 | Whatever the interleaving, an attempted command's id is on disk when the process goes down if and only if its flag had not expired, and then the next process does not run it again while fewer than 64 newer ids followed |
| RestartDedupe.RepeatedExactlyWhen | internal/service/clientcmd.go:146-155 | Told to the next process before its ring overflows, such a command is taken for a new one if and only if the state file could not be read or the command's flag had expired |
| RestartDedupe.SlowRebootIsRepeated | internal/service/clientpower.go:155-184 | Concrete run: the slow reboot, told again, is executed again |
| SelfUpdate.Updater.ReconcileSelfUpdate | internal/service/selfupdate.go:122-170 | Settles a landed or unreadable record, keeps a missed one, and forgets nothing on disk when reading fails |
| SelfUpdate.Updater.ApplySelfUpdate | internal/service/selfupdate.go:214-335 | Launches only after download, signature, claim and record all went through, with the record on disk; otherwise nothing changes |
| SelfUpdate.Updater.SelfUpdate | internal/service/selfupdate.go:37-117 | One cycle is the transition that NewReleaseStartsFresh, LaunchesExactlyWhen and the lemmas about runs speak of |
| SelfUpdate.LandedExactlyWhenNotBehind | internal/selfupdate/selfupdate.go:62-74 | Over any number of cycles of one build that offer nothing else, the record of a release is gone for good, and the release never launched again, if and only if the build is not older than it |
| SelfUpdate.LaunchesAreNewerAndRecorded | internal/selfupdate/selfupdate.go:95-138 | Over any cycles and builds every launch is strictly newer than the running build and was on disk first |
| SelfUpdate.LaunchesAreBounded | internal/selfupdate/selfupdate.go:113-138 | A release that never comes up is launched at most three times over all restarts, plus three per cycle that cannot read the state file |
| SelfUpdate.LaunchesCoolDown | internal/selfupdate/selfupdate.go:127-131 | While reads succeed each launch is decided at least the cooldown after the previous recorded one |
| SelfUpdate.GivenUpStaysQuiet | internal/selfupdate/selfupdate.go:117-120 | A release given up on is left alone while it is the one offered and reads succeed |
| SelfUpdate.ReleaseIsTriedThreeTimes | internal/selfupdate/selfupdate.go:95-138 | From any disk without a record of it: offered on cooled-down cycles without foreign failures, a release that does not come up is launched on each of the first three, numbered one to three, and given up on the fourth |
| SelfUpdate.NewReleaseStartsFresh | internal/selfupdate/selfupdate.go:108-116 | From any record of another version, given up or not, a smooth cycle launches the offered release as attempt 1 and records that |
| SelfUpdate.LaunchesExactlyWhen | internal/selfupdate/selfupdate.go:95-138 | With a readable state file a cycle launches exactly when self-update is on, the manifest offers something newer than the build, all foreign steps succeed and the record leaves room; the attempt is one more than the recorded one of that version |
| SelfUpdate.RecordWithoutLaunch | internal/service/selfupdate.go:37-170 | A cycle that launches nothing clears only a record that has landed or does not parse, marks only one of the offered release without attempts left, and otherwise leaves the record alone |
| SelfUpdate.FailedReadForgets | internal/service/selfupdate.go:122-127 | Concrete run: after giving up, one failed read launches the release again |
| Download.Ensure | internal/download/download.go:49-74 | A returned path holds bytes whose digest is the target's; a cached file with that digest is returned with the directory unchanged even when the fetch breaks; bytes with another digest never replace the final file; it succeeds exactly when a good entry is cached or good bytes arrive and can be moved; at every crash point the final path holds the old file, a verified one or none |
| Download.FetchInto | internal/download/download.go:58-73 | The same for the partial file, its check and the rename |
| Download.CleanupExcept | internal/download/download.go:78-106 | Deletes exactly this manager's other files that are not locked, and changes no content |
| Installer.Service.ForceRedownload | internal/service/service.go:958-989 | A new entry verifies against its own checksum; without one every setup file left is as it was, and the pending entry is gone even though nothing replaced it |
| Installer.Service.Install | internal/service/service.go:852-949 | A setup runs exactly when the gate opens and the file verifies; both runs use bytes of the checksum they are pinned with; at most two runs |
| Installer.Service.Cycle | internal/service/service.go:538-616 | A setup runs exactly when a verified pending entry is resumed or an offered one is obtained, with the gate open; it is pinned with that entry's checksum, all bytes run match, and files, pending entry and executions end as the cycle function says |
| Installer.PendingIsResumed | internal/service/service.go:538-570 | A pending setup that is still wanted and whose file has the pinned digest is executed first, whatever the manifest offers |
| Installer.CorruptPendingIsDropped | internal/service/service.go:549-553 | One that cannot be read or has another digest is dropped with its file, as far as either can be deleted, and nothing is executed |
| Installer.UnwantedPendingIsDropped | internal/service/service.go:538-570 | One no longer wanted is dropped with every file of the manager that can be deleted, one whose version does not parse alone |
| Installer.FetchedSetupIsPending | internal/service/service.go:571-616 | A fetched setup is on disk with its digest and recorded before the gate is asked |
| Installer.UpToDateSweeps | internal/service/service.go:571-616 | Without a newer offer the manager's files that are not locked go, and nothing else |
| Installer.SuccessClearsUp | internal/service/service.go:852-949 | After a first run that left the version installed the entry is gone, and of the manager's files only that setup and the locked ones stay |
| Installer.RetryRunsFreshSetup | internal/service/service.go:852-989 | After one that did not, the setup the source offers then is fetched, verified and executed second, and the pending entry is the new one until that run succeeds |
| Installer.RetryWithoutSource | internal/service/service.go:848-990 | When the source cannot be asked again, the setup that was run first runs a second time if and only if it could not be deleted or is not one of the manager's files: the forced re-download sweeps the cache before it asks, so the local copy the comment promises to fall back to is gone |
| Installer.RefusedInstall | internal/service/service.go:852-883 | With the gate shut nothing happens; a setup that fails the last check is dropped with its entry and not executed |
| Installer.OwnSetupRuns | internal/service/selfupdate.go:214-335 | A fetched setup of the updater itself is executed exactly when it is signed, the gate is open and the attempt is recorded, and deleted when it is not signed; EMLy's files and pending entry are not touched |
| Installer.Service.SelfInstall | internal/service/selfupdate.go:214-335 | The updater's own setup, from its own directory, runs exactly when it is obtained, signed, claimed and recorded |
| Installer.Service.RunCycles | internal/service/service.go:471-616 | Each moment of a process follows from the one before, and between any two a setup is executed exactly when that cycle should execute one, with the right checksum |
| Installer.MomentsAreDetermined | internal/service/service.go:471-616 | What a process finds and what its cycles meet leave only one course of moments |
| Installer.RunExecutesMatching | internal/service/service.go:852-1003 | Every execution of a run has a checksum and bytes whose digest is that checksum, and a run executes something if and only if one of its cycles should |
| Installer.RunLives | internal/service/service.go:471-616 | The same for any sequence of processes, each starting on whatever files and pending entry it finds |
| StateStore.Store.Update | internal/state/state.go:197-248 | Applies the change to the loaded document and replaces the file; commands are handed out even when the write fails; every crash point leaves the old or the new file, or none with the unparsable one in the backup |
| StateStore.LifecyclesAreIndependent | internal/state/state.go:164-203 | In any interleaving each of the three lifecycles ends as if only its own operations had run |
| StateStore.DifferentLifecyclesCommute | internal/state/state.go:164-203 | Operations of different lifecycles can be swapped |
| StateStore.CommandsAreConserved | internal/state/state.go:185-203 | Commands there at the start or added are removed by id, taken once or still there, counted with multiplicity |
| StateStore.ReportedOnceExactlyWhen | internal/state/state.go:197-203 | With writes that may fail, what is handed out beyond the balance is what failed takes found; each command is handed out only by the take that removes it if and only if no failed take found any |
| StateStore.RemovalIsExact | internal/state/state.go:190-194 | A removal takes all commands of its id and no other |
| StateStore.LastWriteIsFound | internal/state/state.go:164-203 | What was last set or cleared is what a load finds until the next operation of the same lifecycle; an added command is found after those there |
| ConfigRevision.Policy.Refresh | internal/service/remoteconfig.go:135-188 | Acts exactly when due; the first server that answers decides; an accepted document of a revision not older than a non-default policy's is in force and saved afterwards, an older or refused one changes nothing, and a confirmation keeps the document and saves it |
| ConfigRevision.RevisionNeverDecreases | internal/service/remoteconfig.go:203-246 | Over any outcomes the revision in force never falls below an earlier one, and what is in force is the starting policy or a document the parser accepted |
| ConfigRevision.NewestIsInForce | internal/service/remoteconfig.go:203-246 | After any outcomes, an accepted document is in force next if and only if the policy in force is the default or has no newer revision |
| Resolver.ResolveWith | internal/source/resolver.go:113-179 | The head is asked at most the configured number of times and no more after a 404, each fallback at most once, k head attempts wait base times (2^(k-1) - 1) in total, the first answer wins, and total failure is not-found exactly when the head's last or some fallback's answer was a 404 |
| Resolver.PromotedIsPermutation | internal/service/preferred.go:43-61 | A promoted chain is a permutation led by the preferred server with the others in their order |
| Resolver.OthersOmitOne | internal/service/preferred.go:43-61 | The others of a chain are its servers but for the preferred one, each in its place |
| Resolver.Session.PreferredChain | internal/service/preferred.go:43-61 | The chain asked is always a permutation of the policy's; a preference the chain no longer lists is forgotten |
| Resolver.Session.SourceUrls | internal/service/service.go:689-721 | The sources are the manifest URLs of that permutation, in order, never an empty list |
| Resolver.SilentServerIsSkipped | internal/service/service.go:689-721 | A server without a manifest URL is left out and changes nothing about the others |
| Resolver.ServersAreAskedInOrder | internal/service/service.go:689-721 | The others are asked once each, in chain order |
| Resolver.Session.ServerFor | internal/service/preferred.go:65-76 | The first server of the chain with the URL that answered, none exactly when there is none |
| Resolver.Session.NotePreferredServer | internal/service/preferred.go:86-121 | A fallback becomes preferred unless the head said 404, the head answering clears the preference, and the channel is woken exactly on a change |
| WsSession.Channel.StoreWSSession | internal/service/clientevents.go:238-244 | Publishes only for the current generation |
| WsSession.Channel.ClearWSSession | internal/service/clientevents.go:252-259 | Clears the session and retires its generation if current |
| WsSession.PublishedIsCurrent | internal/service/clientws.go:237-263 | In every interleaving with late welcome bursts a published session belongs to the connection that is up |
| WsSession.ClosedNeverPublishes | internal/service/clientevents.go:246-259 | A cleared connection never publishes again |
| WsSession.CurrentWelcomePublishes | internal/service/clientevents.go:238-259 | In every interleaving the burst of the connection that is up publishes its session, which stays until the connection is closed |
| WsSession.WelcomeStartsBurst | internal/service/clientws.go:237-263 | A welcome starts the burst of the connection that is up, and a connection can be opened whenever none is |
| WsSession.ClosingClears | internal/service/clientevents.go:246-259 | In every interleaving closing takes the published session down and remembers its generation; a burst still under way is not lost |
| Ulid.NewIdAt | internal/wsclient/id.go:19-41 | The bit loops return exactly the 26 base-32 digits, most significant first, of the 128-bit number of time and entropy |
| Ulid.EncodeGroup | internal/wsclient/id.go:30-38 | Five shifted bits are digit i of the padded bit string |
| Ulid.IdDigitsValue | internal/wsclient/id.go:28-39 | Read in base 32 the digits are the number the 16 bytes are in base 256 |
| Ulid.FirstCharacter | internal/wsclient/id.go:28-39 | The first character is at most 7 |
| Ulid.EarlierSortsFirst | internal/wsclient/id.go:21-24 | An earlier 48-bit time sorts first, whatever the entropy |
| Ulid.IdsAreInjective | internal/wsclient/id.go:19-41 | Two ids are equal if and only if their 48-bit times and entropies are |
| Ulid.AlphabetIsCrockfords | internal/wsclient/id.go:11-12 | The 32 characters are the digits and the upper-case letters without I, L, O and U |

## Left out

- JSON text: parsing, printing, the size limit and duplicate keys; documents are decoded values, and numbers are reals.
- Key spelling: Go's decoder also matches struct keys without case; keys are compared exactly here, so a document that uses two spellings of one key is outside the model.
- Aliasing: `cloneValue` and the sharing of Go maps; values here are immutable.
- Libraries: time, URL, CIDR, number and version parsing, hashing, lower case and case folding are arbitrary functions; `EqualFold` is equality of folded text.
- Problem texts and their order: only acceptance matters.
- PowerProtocol.RunKeepsInvariant: removals from the state file are taken to succeed, the ids a process accepts are distinct from each other and from those it inherited (which the ring gives while fewer than 64 newer ids arrived), and the welcome burst takes the old records before this process writes its first.
- PowerProtocol: the claim on a command name (`claimCommand`), which keeps two commands of one name from running at once, is not modelled, so the runs include some the code excludes; the concrete runs use a restart and a reboot, which it does not exclude.
- RestartDedupe.CommandIsNotRepeated: speaks of a readable state file; RestartDedupe.RepeatedExactlyWhen covers the other case.
- PowerGate.Updater.RunDestructive: one sequential run; the interleavings are in PowerProtocol. Rejected arguments, acknowledgements, results and the closing of the connection are left out.
- CommandRing.Commands.Deliver: lookup, add and refuse are one step per delivery; CommandVerdicts separates the refusal. Lookup and add stay one step, and deliveries of one id do not overlap. The per-name `running` claims are part of the verdict.
- SelfUpdate: events, moving the configuration cache aside and restoring it, and the sweep of the updater's own downloads after a landing.
- SelfUpdate.LaunchesAreBounded: three more launches are possible for every cycle that cannot read the state file, as SelfUpdate.FailedReadForgets shows.
- Installer: waiting for EMLy to exit, the forced kill, the uninstaller and the version check after a setup only decide whether a step happens or succeeds. Files are changed by the updater alone.
- StateStore.Store.Update: the temporary file is not visible; the write and the rename are one step.
- ConfigRevision: cancellation in the middle of a refresh, the switch that disables remote configuration, ETags and staleness.
- Resolver.ResolveWith: the wait is a number and the context is looked at between steps.
- Ulid: shifts and masks are written as division and remainder; milliseconds before 1970 wrap as in the source.
- PolicyLegacy: the sections other than the topology, and the parsing of config.ini.
- Windows interfaces, signatures, certificates, toasts, the named pipe, transports, logging, telemetry, package listing, reconnect backoff, jitter and event buffering.
