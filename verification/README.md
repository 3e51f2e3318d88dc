# The csi-hostpath volume store and its controller, in Dafny

A CSI driver keeps every volume and every snapshot of a node as a directory
`/opt/csi-hostpath/<group>/<name>` with a `meta.json` record and a `mountpoint` subtree. There is no
database, no lock and no journal: the file tree is the state. A controller finds the node and the group of
a volume from cluster objects, asks the node for a listing, searches it for a name, and only then changes
the store. A group controller repeats this for many volumes with partial failure.

This project models that system and proves what its callers rely on: that the tree implements a map from
names to volumes, that copies are faithful and stay as they were, that retries change nothing, that a
listing agrees with the disk, what concurrency and crashes can and cannot do to the records, and where the
code does *less* than one would expect, the exact condition under which it does what it promises.

## How it is built

| modules | what they model |
|---|---|
| `Wrappers`, `Integers`, `Strings`, `Paths` | optional values, int64 arithmetic, `strings.Replace` and friends; path strings against component lists; the directory layout |
| `Json`, `Metadata`, `Spelling` | the JSON text of a record: writer, full reader, `Unmarshal` into `Vol`; letter by letter what is written and read |
| `FileSystem` | the file tree and the system calls, as a class that updates it |
| `TreeCopy`, `StoreEffects`, `HostPath` | the copying walk and the store's methods, with the effect of each on every tree |
| `Volumes` | the abstract store, a map from (group, name) to size and data; every method refines a step on it, under a free name, and what the methods do under a taken one |
| `Remote` | the node's gRPC service and the client, over a network that may lose a request or a reply |
| `Protocol`, `Rounding`, `Location`, `CsiController`, `CsiGroupController` | the controllers |
| `Clusters`, `GroupRuns`, `Retries`, `FailStop`, `Copies`, `Capacity`, `Addressing` | theorems about whole runs |
| `Interleaving`, `Schedules`, `Alone` | the store's methods split into system calls, in any interleaving, with crashes; what the calls of one method add up to |

A tree is a map from paths to directories and files. `Volumes.Represents(t, s)` says that tree `t` holds
exactly the store `s`, each volume with a readable record that names its own directory and group; it is the
invariant the code never states. An *outcome* (`Protocol`) relates the tree before and after one controller
request, whatever the network did; an *attempt* is the same on the map. A *run* (`Clusters`) is any sequence
of requests and of writes by pods below the mount point of the volume they use.

## What the code does not do

* `strings.Replace(path, src, dst, -1)` replaces every occurrence of the source's mount point, not only the
  leading one. A copy equals its source if and only if no path in the data repeats the source's mount point
  (`StoreEffects.CopyEffectDone`, `Volumes.CopyRefines`); `Copies.UnfaithfulCopy` gives, for every two names, a volume
  that is copied wrongly while the call reports success.
* `meta.json` is opened without truncation. A shorter record over a longer one is unreadable
  (`Metadata.OverwriteSize`), and so two racing creates leave an unreadable record exactly when the second
  size has fewer digits (`Schedules.RacingCreates`); `Schedules.RaceFromEmpty` gives the schedule, from an empty disk,
  in which both report success.
* One unreadable record, such as a crash in a create leaves (`Schedules.CrashFromEmpty`), blocks its whole group for
  good: nothing can be created or deleted there any more (`FailStop.GroupStopped`). Expanding does not look at the
  listing and goes on working.
* The store's methods do not look whether a name is taken; two requests that both found it free run one after the
  other. The second create resizes the first one's volume, or leaves the group half-made when its size has fewer
  digits (`Volumes.CreateOverTaken`, `Volumes.CopyOverTaken`).
* Cloning ignores the requested size; the response reports it nevertheless. Reported and stored capacity
  agree if and only if the source's size is the rounded request (`Capacity.CreatedSize`).
* A retried `CreateSnapshot` reports size 0 (`Protocol.ReportedSizeUnder`).
* A group snapshot stays "ready" when a lookup fails or a snapshot exists already, although the response then
  leaves that source out; the CRD's description of `readyToUse` says otherwise. Without losses and with every source
  in place it is *always* ready; `GroupRuns.ReadyExactly` says, from what is known before the call, when it means
  that every source is listed.
* The name of a group's snapshot is the group, a hyphen and the volume, and hyphens are common in both. Group `a-b` with
  volume `c` and group `a` with volume `b-c` share a snapshot when both volumes lie in one place, and the later
  request lists nothing for it (`CsiGroupController.SnapshotNamesCollide`).
* `getRoundedCapacity` rounds 0 to 0, not to the 1Mi its comment promises, and wraps around to a negative
  capacity for every request above 2^63 - 2^30 (`Rounding.RoundingBound`, `Rounding.NoMinimum`).
* `DeleteVolume` takes two error texts of the lookup for "already gone". An answer can be believed if and only if
  the text of a lost message is not one of them (`Retries.AnswerIsTrue`). The error of a failed listing quotes the
  names of the group and of the directory it stopped at: if one of them reads as a swallowed error, a delete that
  hears of it reports success and removes nothing. `FailStop.DeletesMistakenExactly` says which names do. The
  group is a storage-class parameter and can be any of them.
* Removing without a name removes the whole group (`Volumes.NamelessRemovesGroup`), and a volume made without a group
  sits where a group belongs (`Paths.GrouplessIsGroup`).
* A storage-class parameter named like the group key overwrites the group in the volume context, and later
  requests look for the volume in a group it is not in (`Addressing.OverwrittenGroup`).

## Model

| member | source | states |
|---|---|---|
| Strings.ReplaceAllFixed | pkg/server/hostpath_commands.go:183 | replacing every occurrence leaves a text as it is if and only if the searched text does not occur in it or is replaced by itself |
| Strings.ReplaceAllLength | pkg/server/hostpath_commands.go:183 | where the searched text occurs, a longer (shorter) replacement makes the result strictly longer (shorter) |
| Strings.ReplaceAllRemoves | pkg/server/hostpath_commands.go:282 | when neither text runs into the other, no occurrence is left and none arises by pasting |
| Strings.ReplaceAllStep | pkg/server/hostpath_commands.go:183 | replacing every occurrence replaces the first one and goes on behind it |
| Strings.OccursExactly | pkg/driver/controller.go:368-377 | a text is contained in another if and only if it begins somewhere in it, and then there is a first place |
| Strings.ReplaceFirstExactly | pkg/utils/common.go:94 | replacing once leaves a text without the searched text as it is, and otherwise puts the replacement between what stands before the first occurrence and what stands behind it |
| Strings.ToLowerIdempotent | pkg/driver/controller.go:230 | lower-casing a name twice is lower-casing it once, so a name made lower-case at creation is found again when deleting lower-cases it again |
| Strings.LowerExactly | pkg/driver/controller.go:342 | capitals go to the small letters at the same distance, every other character stays; a text is its own lower-casing if and only if it has no capitals |
| Paths.ResolveRender | pkg/server/hostpath_commands.go:96-104 | the string built for a path denotes exactly that path, so different paths never share a string |
| Paths.LayoutStrings | pkg/server/hostpath_commands.go:157-172 | the strings put together with Sprintf are the paths of group, volume, record and mount point, for every group and name |
| Paths.GrouplessIsGroup | pkg/server/hostpath_commands.go:96 | a volume made without a group sits where the group of that name belongs |
| Paths.VolumesApart | pkg/server/hostpath_commands.go:139-140 | different volumes own disjoint subtrees, also when one name is a prefix of the other, and a record is never inside its own data |
| Paths.RebasedPath | pkg/server/hostpath_commands.go:183 | re-basing an entry swaps the source mount point in front and applies the replacement to the remainder again |
| Paths.RebaseExact | pkg/server/hostpath_commands.go:183 | replace-all equals swapping the leading mount point only, if and only if the remainder does not repeat it (or nothing is replaced) |
| Paths.ImageNeverRepeats | pkg/server/hostpath_commands.go:282 | with the mount points of two volumes of one group, no path produced by re-basing names the source mount point again |
| Paths.ImageRendered | pkg/server/hostpath_commands.go:183-188 | the text produced by re-basing is a proper path, read by the kernel as the path it renders |
| Json.ParseWritten | pkg/server/hostpath_commands.go:55 | a written object is read back as a document; followed by anything but white space it is no document |
| Json.ReadWritten | pkg/server/hostpath_commands.go:201 | every JSON value written is read back, with the rest of the text left over |
| Metadata.DecimalRoundTrip | pkg/server/hostpath_commands.go:122 | a size written in decimal is read back, without leading zeros |
| Metadata.MembersRoundTrip | pkg/lib/parser.go:205-213 | storing the written members of a record into an empty one gives the record back, field by field |
| Metadata.DecodeEncode | pkg/server/hostpath_commands.go:47-59 | every record with every name, group, tag list and 64-bit size survives writing and reading; text left behind it makes the file unreadable unless it is white space |
| Metadata.EncodePrefixFree | pkg/server/hostpath_commands.go:122-130 | no record is the beginning of another record |
| Metadata.OverwriteDecodes | pkg/server/hostpath_commands.go:117-130 | a record written over another without truncation is readable if and only if it is at least as long, and is then the new one |
| Metadata.OverwriteSize | pkg/server/hostpath_commands.go:295-308 | for one volume: readable if and only if the new size has at least as many digits; never shrinking the size is enough |
| Metadata.RecordLength | pkg/server/hostpath_commands.go:109-122 | two records of a volume differ in length exactly as their sizes do in digits |
| FileSystem.OverwriteExactly | pkg/server/hostpath_commands.go:117-130 | an overwritten file is the new text and, place for place, what was there before behind its end |
| Spelling.RecordText | pkg/server/hostpath_commands.go:109-122 | the exact text of the record of a volume: the seven members by name, in this order, with these values |
| Spelling.QuoteExactly | pkg/server/hostpath_commands.go:122 | a written text never holds a control character, a bracket, an ampersand or a line separator, and stands between its quotes unchanged if and only if nothing in it needs an escape |
| Spelling.EscapeExactly | pkg/server/hostpath_commands.go:122 | which characters are written as they are, with a two-character escape or with four lower-case hexadecimal digits |
| Spelling.SpelledTextRead | pkg/server/hostpath_commands.go:55 | a text in quotes is read as the text it spells, however each character is spelled: raw, with a short escape, with hexadecimal digits of either case or as a pair of surrogates |
| Spelling.TextOnlySpelled | pkg/server/hostpath_commands.go:55 | and only such spellings are read, with a lone surrogate taken for the replacement character |
| Spelling.NumberRead | pkg/server/hostpath_commands.go:55 | a number of any form, with sign, fraction and power of ten, is read whole |
| Spelling.BlankExactly | pkg/server/hostpath_commands.go:55 | white space is spaces, tabs, line feeds and carriage returns, and nothing else |
| Spelling.FoldExactly | pkg/server/hostpath_commands.go:55 | the name of a member is taken for that of a field if and only if they differ in the case of letters at most |
| Spelling.TextStored | pkg/lib/parser.go:205-213 | a text member goes to the field of its name; null leaves the field, a value of another kind is an error |
| Spelling.SizeAndTagsStored | pkg/lib/parser.go:205-213 | the size takes a decimal number or null, the tags a list or null, anything else is an error |
| Spelling.OtherIgnored | pkg/lib/parser.go:205-213 | a member of any other name is ignored |
| FileSystem.Disk.MkdirAll | pkg/server/hostpath_commands.go:98 | makes the path and its missing ancestors, fails exactly when it runs into a file, and then changes nothing |
| FileSystem.Disk.OpenFile | pkg/server/hostpath_commands.go:117 | creates a file only in an existing directory; keeps the contents without O_TRUNC and empties it with |
| FileSystem.Disk.WriteString | pkg/server/hostpath_commands.go:127 | overwrites the front of the file and keeps what lies beyond the text |
| FileSystem.Disk.StatNotExist | pkg/server/hostpath_commands.go:328-334 | true exactly when the entry is missing and its path does not run through a file |
| FileSystem.Disk.Remove | pkg/server/hostpath_commands.go:225 | takes a file or an empty directory away; leaves a directory with entries, the root and a missing entry as they are |
| FileSystem.Disk.RemoveAll | pkg/server/hostpath_commands.go:140 | takes away the entry and all below it, and nothing else |
| FileSystem.Disk.ReadDir | pkg/server/hostpath_commands.go:74 | gives every entry of the directory once, in some order |
| HostPath.HostPathCommands.CopyFile | pkg/server/hostpath_commands.go:336-355 | the destination gets the bytes of a source file; a missing source changes nothing; a directory as source leaves an empty file; copying a file onto itself empties it, because it is truncated first |
| HostPath.HostPathCommands.VisitEntry | pkg/server/hostpath_commands.go:174-192 | one callback of the walk: a file is copied to its re-based path, a missing directory is made there, an entry that could not be looked at is skipped, errors are dropped |
| HostPath.HostPathCommands.CopyTree | pkg/server/hostpath_commands.go:174-192 | the walk ends and changes nothing outside the destination; into a fresh destination it makes images of source entries only, and the very tree of the source when no path repeats its mount point; onto itself it empties every file |
| TreeCopy.WalkStep | pkg/server/hostpath_commands.go:174-192 | visiting one entry parent-first keeps the walk invariant: exact copies so far, source untouched, each copied file finding its parent |
| TreeCopy.WalkEnd | pkg/server/hostpath_commands.go:174-192 | when nothing is pending every source entry has been visited and the destination equals the source |
| TreeCopy.ExactOnlyIfCopyable | pkg/server/hostpath_commands.go:183 | a destination made of images only can equal the source only if no source path repeats the source mount point |
| TreeCopy.ParentCopied | pkg/server/hostpath_commands.go:183-189 | when an entry is visited its parent is already a directory in the destination and its own place is free |
| StoreEffects.CopyEffectDone | pkg/server/hostpath_commands.go:145-212 | directories, walk and record together are the copy: exact if and only if no path repeats the mount point, everything else unchanged |
| HostPath.HostPathCommands.GetVolMeta | pkg/server/hostpath_commands.go:38-60 | the record of a volume, or an error that quotes the path, or what the file holds when it does not decode |
| HostPath.HostPathCommands.ListVol | pkg/server/hostpath_commands.go:63-92 | one record per directory, skipping files; a missing group is empty; fails exactly when the group is a file or one directory has no readable record, and the error names that directory |
| HostPath.HostPathCommands.CreateVol | pkg/server/hostpath_commands.go:95-133 | makes the directories and writes the record over what was there; fails exactly when a file or directory is in the way, leaving at most directories |
| HostPath.HostPathCommands.CloneVol | pkg/server/hostpath_commands.go:145-212 | the copy with the record of the source under the new name; nothing at all is made when the source record cannot be read |
| HostPath.HostPathCommands.CreateSnapshot | pkg/server/hostpath_commands.go:246-311 | the same copy, and the size of the source read as int64 |
| HostPath.HostPathCommands.ExpandVol | pkg/server/hostpath_commands.go:215-242 | replaces the record by one that differs in the size only, removing it first; fails without effect when it cannot be read |
| HostPath.HostPathCommands.RemoveVol | pkg/server/hostpath_commands.go:136-142 | removes what the directory string denotes, for any name without dots, and always succeeds; for proper names that is the directory of the volume and nothing else |
| HostPath.HostPathCommands.RemoveSnapshot | pkg/server/hostpath_commands.go:322-326 | the same for a snapshot |
| HostPath.HostPathCommands.GetVolPath | pkg/server/hostpath_commands.go:313-319 | empty exactly without a group or a name, otherwise a string that denotes the mount point of the volume |
| Volumes.OneVolumeChanged | pkg/server/hostpath_commands.go:95-133 | a change inside the directory of one volume that leaves it complete changes exactly that entry of the map and keeps the directory invariant |
| Volumes.CreateRefines | pkg/server/hostpath_commands.go:95-133 | creating under a free name always succeeds and adds one empty volume of the requested size |
| Volumes.CopyRefines | pkg/server/hostpath_commands.go:145-212 | cloning or snapshotting under a free name adds one complete volume with the size of the source; its data is that of the source if and only if no path there repeats the mount point |
| Volumes.CreateOverTaken | pkg/server/hostpath_commands.go:95-133 | creating under a taken name, which the method does not refuse, always succeeds: a resize that keeps the data when the size has at least as many digits, and otherwise a half-made group that represents no store |
| Volumes.CopyOverTaken | pkg/server/hostpath_commands.go:145-212 | the same for a copy onto an existing volume, decided by the digits of the two sizes |
| Volumes.CopyOfMissing | pkg/server/hostpath_commands.go:149-152 | a copy of a missing volume fails and changes nothing, also when source and destination are the same name |
| Volumes.ExpandRefines | pkg/server/hostpath_commands.go:215-242 | succeeds exactly on existing volumes and changes the size of that one entry only |
| Volumes.RemoveRefines | pkg/server/hostpath_commands.go:136-142 | removes exactly that entry of the map |
| Volumes.NamelessRemovesGroup | pkg/server/hostpath_commands.go:136-142 | removing without a name removes every volume and snapshot of the group and nothing else |
| Volumes.PodWriteRefines | pkg/driver/agent.go:224 | a pod writing below the mount point it was given changes the data of that one volume |
| Volumes.RepresentsUnique | pkg/server/hostpath_commands.go:38-92 | the tree determines the map |
| Volumes.ListingIsTrue | pkg/server/hostpath_commands.go:63-92 | under the directory invariant a listing never fails and returns exactly one record per directory, whatever the order |
| Remote.Server.ListVol | pkg/server/server.go:126-140 | fails exactly when the group cannot be listed, else gives one reply per directory in the order read, each field of it that field of the record stored there |
| Remote.Server.Convert | pkg/server/server.go:134-137 | each field of each reply is the field of that name of the volume at the same place |
| Remote.Server.CreateVol | pkg/server/server.go:143-169 | with a snapshot name the copy of that snapshot, otherwise with a clone name the copy of that volume, and only without both a blank volume of the requested size |
| Remote.Connection.FirstNamed | pkg/client/grpc.go:170-177 | the first record of that name; none only if no record has it |
| Remote.Connection.GetVolume | pkg/client/grpc.go:157-178 | finds a record exactly when a complete directory holds one of that name, and gives that record field by field; fails when the listing does or a message is lost, with the text of the one or the other |
| Remote.Connection.CreateVolume | pkg/client/grpc.go:122-140 | success is reported only when the store carried the request out; a lost reply hides that it did |
| Remote.Connection.CreateSnapshot | pkg/client/grpc.go:142-155 | likewise, with the size of the source |
| Remote.Connection.DeleteVolume | pkg/client/grpc.go:180-193 | likewise for removing a volume |
| Remote.Connection.DeleteSnapshot | pkg/client/grpc.go:195-209 | likewise for removing a snapshot |
| Remote.Connection.ExpandVolume | pkg/client/grpc.go:212-226 | likewise for expanding |
| Remote.SearchAgrees | pkg/client/grpc.go:157-178 | under the directory invariant the search finds a record exactly when the directory exists, with the group, name and size of that volume, status ok, no source and no tags, whatever the order of the directory |
| Remote.ListingUnder | pkg/server/hostpath_commands.go:84-87 | under the directory invariant a group can always be listed and lists exactly the volumes there are |
| Rounding.RoundedExactly | pkg/driver/controller.go:112-125 | up to 2^63 - 2^30 nothing wraps: the result is the next multiple of the unit, less than one unit above the request |
| Rounding.RoundingBound | pkg/driver/controller.go:119-125 | a positive request is rounded to at least itself if and only if it is within that bound; above it the capacity is negative |
| Rounding.RoundedPastBound | pkg/driver/controller.go:119-125 | every request past the bound gets the least int64, or that and 1Gi |
| Rounding.RoundedNegative | pkg/driver/controller.go:119-125 | a negative request is cut towards zero after the unit was added: above -1Mi to 0, otherwise to the multiple of 1Mi that is nearly a unit above it |
| Rounding.RoundingStable | pkg/driver/controller.go:112-125 | rounding is idempotent and monotone across the two branches |
| Rounding.NoMinimum | pkg/driver/controller.go:123-124 | 0 is rounded to 0; every positive request within the bound gets at least 1Mi |
| Integers.QuotientExactly | pkg/driver/controller.go:121 | division is towards zero: the remainder is smaller than the divisor and has the sign of the dividend |
| Integers.WrapExactly | pkg/driver/controller.go:121 | an int64 result is the unbounded one up to a multiple of 2^64 |
| Location.BuildContext | pkg/driver/controller.go:309-316 | the context holds node and group, and every parameter over them |
| Location.LocationRoundTrip | pkg/utils/common.go:45-85 | node and group read back from the provisioned volume are those of the response, the group if and only if no parameter overwrote it |
| CsiController.Controller.CreateVolume | pkg/driver/controller.go:194-328 | nothing changes unless the claim was scheduled to a connected node; then only the tree of that node may, as one create by the protocol; the response has the lower-cased name, the rounded capacity, the source asked for, and node, group and parameters |
| CsiController.Controller.PlanCreate | pkg/driver/controller.go:198-231 | accepted if and only if there are a name, a known claim and its selected, connected node; group, name, rounded capacity and the snapshot or volume to copy are those of the request |
| CsiController.Options | pkg/driver/controller.go:233-287 | a snapshot source is passed on as the snapshot name, a volume source as the clone name, and the other one is empty |
| CsiController.Controller.EnsureVolume | pkg/driver/controller.go:242-256 | look up, create only when not found; a failed lookup changes nothing and is an error |
| CsiController.Controller.DeleteVolume | pkg/driver/controller.go:332-387 | an empty group succeeds without effect; otherwise look up and remove at the node of the volume object, for an id without capitals under that very id in the group of its object; the error of the lookup, which is that of the listing or of a lost message, may be mistaken for success |
| CsiController.Controller.ControllerExpandVolume | pkg/driver/controller.go:456-502 | expands at the located node and group to the rounded capacity and reports it; looks at no listing |
| CsiController.Controller.CreateSnapshot | pkg/driver/controller.go:508-582 | look up, make the copy only when not found, at the place of the source; the size is 0 when it was found |
| CsiController.Controller.DeleteSnapshot | pkg/driver/controller.go:588-647 | located through the content object of the snapshot and its source; look up, remove only when found |
| CsiController.Controller.Locate | pkg/driver/controller.go:464-489 | succeeds exactly for a volume object that names a group and a connected node, and gives these two |
| Protocol.CreateRefinesAttempt | pkg/driver/controller.go:233-306 | under the directory invariant a create request is an attempt at one create on the map: all or nothing, done if answered, and without losses answered exactly when the name is taken or the source exists |
| Protocol.DeleteRefinesAttempt | pkg/driver/controller.go:365-386 | a delete request is an attempt at removing one entry; an answer means it is gone unless the error text was mistaken |
| Protocol.DeleteVolumeRefines | pkg/driver/controller.go:365-386 | deleting a volume is such an attempt; on a complete store only the text of a lost message can be mistaken |
| Protocol.ExpandRefinesAttempt | pkg/driver/controller.go:492-495 | an expand request is an attempt at one resize; an answer means the volume exists and has the size |
| Protocol.ReportedSizeUnder | pkg/driver/controller.go:557-581 | a snapshot request reports the size of the source when it makes the snapshot and 0 when it is a retry |
| Retries.SettledFrom | pkg/driver/controller.go:194-387 | after the first answered attempt at a create or delete every later one leaves the very same tree, byte for byte, and without losses is answered too; the exception is deleting a volume when the text of a lost message is mistaken |
| Retries.OnceOrNotAtAll | pkg/driver/controller.go:194-647 | any number of attempts at a create or delete, of volume or snapshot, with any losses: the tree is the first one, or exactly one attempt changed it and carried the request out |
| Retries.AnswerIsTrue | pkg/driver/controller.go:366-373 | every answered attempt has carried its request out if and only if lost messages are not mistaken or it had been carried out before |
| Retries.ManyIsOne | pkg/driver/controller.go:508-647 | without losses n >= 1 attempts give the tree and the answer of one attempt, success or not |
| Clusters.RunRefines | pkg/server/hostpath_commands.go:63-92 | every run from complete stores keeps the directory invariant on every node at every step and is a run of the abstract stores |
| Clusters.KeptUntilTouched | pkg/driver/controller.go:243-256 | what is stored under a name stays as it is until a request to delete or expand it or a write of its pod |
| Clusters.SnapshotSafety | pkg/server/hostpath_commands.go:246-311 | as long as no step deletes, expands or writes to a snapshot it keeps the very data and size its source had before the snapshot was made, whatever happens to the source and with losses throughout |
| Clusters.RestoreSafety | pkg/driver/controller.go:233-256 | a volume made from the snapshot later starts with that data and size, even if the source was rewritten, expanded or deleted meanwhile |
| FailStop.ExpandGoesOn | pkg/driver/controller.go:493-495 | expanding a complete volume of that group still succeeds and changes its record only |
| FailStop.IncompleteStays | pkg/server/hostpath_commands.go:84-87 | no request on any volume and no pod makes an incomplete directory complete or adds or removes directories of its group |
| FailStop.GroupStopped | pkg/server/hostpath_commands.go:84-87 | in every run, once a directory has no readable record it never gets one, and the directories of its group stay the same for ever |
| FailStop.DeletesMistaken | pkg/driver/controller.go:366-373 | when the one incomplete directory of a group is named like a swallowed error, every delete in the group reports success and removes nothing, whatever the reason and without any loss of messages |
| FailStop.DeletesMistakenExactly | pkg/driver/controller.go:366-373 | on a group whose incomplete directories have no record file no delete removes anything, and one may be answered with success if and only if the name of the group or of an incomplete directory reads as one of the two swallowed errors |
| FailStop.SwallowedExactly | pkg/server/hostpath_commands.go:84-87 | the error of such a listing is swallowed exactly for these names: nothing in its fixed text helps or hinders |
| FailStop.DeletedButThere | pkg/driver/controller.go:366-373 | for every volume there is a tree on which it is complete and every delete of it succeeds without effect |
| Copies.NoSelfCopy | pkg/driver/controller.go:268-281 | in every run, a request to copy a volume onto itself changes nothing, so no file is ever truncated by copying it onto itself |
| Copies.MissingSourceInVain | pkg/server/hostpath_commands.go:149-152 | in every run, a request to copy a missing volume changes nothing |
| Copies.CopyElsewhere | pkg/server/hostpath_commands.go:336-354 | entries of two different volumes have different paths, so within a copy no file is its own destination |
| Copies.UnfaithfulCopy | pkg/server/hostpath_commands.go:183 | for every two names there is a volume whose copy succeeds and differs from it |
| Capacity.SizesOnDisk | pkg/server/hostpath_commands.go:215-242 | along any run of resizes, writes of its pod and anything else but its removal, the record of a volume stays its own and its size is set by the resizes alone |
| Capacity.CapacityHonest | pkg/driver/controller.go:227-297 | a blank volume is created, answered, and anything but its removal follows: at every step the record is its own, with the capacity reported by the last answered request or sent by an unanswered one since |
| Capacity.ReportedByCreate | pkg/driver/controller.go:284-320 | until the first expansion is asked for the store holds the capacity the create reported |
| Capacity.DataKept | pkg/server/hostpath_commands.go:215-242 | between two writes of its own pod the data of the volume is the same at every step |
| Capacity.ReportedIsStored | pkg/driver/controller.go:479-501 | after an answered expansion and until the next request the store holds exactly the reported capacity, through both conversions |
| Capacity.CapacityNeverShrinks | pkg/driver/controller.go:479-493 | from the create on, the size on disk never shrinks if the requests do not, answered or not |
| Capacity.CreatedSize | pkg/server/server.go:147-165 | an answered create stores the reported capacity if and only if the volume is blank or the size of the source is the rounded request |
| Addressing.CreatedIsReached | pkg/driver/controller.go:309-325 | expanding, snapshotting and deleting by the id of a create response reach the node and group it was created in, if and only if no parameter overwrote the group |
| Addressing.OverwrittenGroup | pkg/driver/controller.go:313-316 | with an overwritten group the volume is looked for in another group than its own |
| Addressing.ContentOfSnapshot | pkg/utils/common.go:87-95 | a snapshot named by prefix and uid has the content object of that uid, whatever the uid contains |
| Addressing.SnapshotIsReached | pkg/driver/controller.go:601-626 | a snapshot is looked for where its source lives, by the content object of its uid |
| Addressing.ContentExactly | pkg/utils/common.go:87-95 | the content object of an id is named by the id itself when the prefix does not occur in it, and otherwise by the id with its first occurrence replaced |
| Addressing.OrdinaryIsReached | pkg/driver/controller.go:601-626 | a snapshot without the prefix in its id is looked for where the source named by the content object of that very id lives |
| Addressing.MemberPrefix | pkg/driver/group_controller.go:66 | a prefix without a hyphen occurs in the id of a group member if and only if it occurs in the group or in the volume |
| Addressing.MemberIsReached | pkg/driver/group_controller.go:130-150 | a group member is looked for where its source lives, by the content object of its id, when the prefix occurs in neither name |
| Addressing.LocateExactly | pkg/utils/common.go:45-85 | a volume is located at exactly the group attribute and the first value of the first host requirement of its object |
| Addressing.CreateMakes | pkg/driver/controller.go:194-328 | from the request to the store: an answered create under a free name made a copy of the snapshot or volume the request names, or a blank volume of the rounded size; without losses it is answered if and only if there is such a source or none is asked for |
| Addressing.CreateIsStep | pkg/driver/controller.go:233-306 | what a create request does is one step of a run |
| Addressing.DeleteVolumeIsStep | pkg/driver/controller.go:365-386 | what a volume delete does is one step of a run, mistaken errors included |
| Addressing.DeleteSnapshotIsStep | pkg/driver/controller.go:628-646 | what a snapshot delete does is one step of a run |
| Addressing.ExpandIsStep | pkg/driver/controller.go:492-495 | what an expansion does is one step of a run |
| Addressing.SourceIsStep | pkg/driver/group_controller.go:82-107 | one located source of a group snapshot is one create step of a run |
| Addressing.BlockedGroupKept | pkg/driver/group_controller.go:82-107 | in a group request with any sources, a group with an incomplete directory keeps its directories at every turn and none of its sources gets a snapshot |
| CsiGroupController.GroupController.CreateVolumeGroupSnapshot | pkg/driver/group_controller.go:46-128 | the loop is one turn per source in order, each at the node of its source under the group and the volume joined by a hyphen; listed are the snapshots of positive size; ready unless a source could not be located or a create failed |
| CsiGroupController.SnapshotNameShape | pkg/driver/group_controller.go:66 | the name of a snapshot is the group, a hyphen and the volume |
| CsiGroupController.SnapshotNamesCollide | pkg/driver/group_controller.go:66 | two members share a name if and only if they are the same or one group continues the other by a text the other volume starts with; for one volume different groups never do |
| CsiGroupController.GroupController.SnapshotSource | pkg/driver/group_controller.go:84-107 | a failed lookup is only logged, an existing snapshot is left out, a failed create is reported |
| CsiGroupController.GroupController.DeleteVolumeGroupSnapshot | pkg/driver/group_controller.go:130-183 | deletes in order and stops at the first failure |
| GroupRuns.GroupRefines | pkg/driver/group_controller.go:46-128 | on complete stores the loop keeps every node complete and is a sequence of attempts on the abstract stores |
| GroupRuns.ResponseOrder | pkg/driver/group_controller.go:109-119 | the response lists, in source order and without omission, exactly the sources for which this call made a snapshot of positive size |
| GroupRuns.GroupExact | pkg/driver/group_controller.go:89-119 | each listed snapshot was not there before, is stored at the end, and has the size of its source, which is the size reported |
| GroupRuns.ListedUnder | pkg/driver/group_controller.go:62-119 | without losses, a source of positive size whose name with the group is free is listed under that very text with its size, and stored under it |
| GroupRuns.TwoGroups | pkg/driver/group_controller.go:62-119 | two requests for one volume under different unused names both list a snapshot, each under its own name, and both are stored in the end |
| GroupRuns.ReadyExactly | deploy/helm/crds/groupsnapshot.storage.k8s.io_volumegroupsnapshots.yaml:161-167 | without losses and with every source located and stored the group is always ready, and every source is listed if and only if, before the call, the names of the snapshots were free and distinct and each size of a source reads as positive |
| GroupRuns.GroupReady | pkg/driver/group_controller.go:84-127 | with distinct sources, free names, sources of positive size and no failed lookup the group is ready if and only if every source is listed, whatever replies are lost |
| GroupRuns.GroupOnHalfMade | pkg/driver/group_controller.go:90-92 | when every located source lies in a group with a directory without readable record, no node changes and nothing is listed, and the group is ready if and only if all sources were located |
| GroupRuns.GroupDeleteExact | pkg/driver/group_controller.go:130-183 | on success exactly the listed snapshots are gone; on a failure exactly those before the failing one, and that one only if its reply was lost |
| GroupRuns.GroupDeleteConverges | pkg/driver/group_controller.go:130-183 | any number of calls of the loop for the same snapshots, failing anywhere and with losses, of which the last succeeds, leaves exactly what one uninterrupted call leaves: the store less the listed snapshots |
| Interleaving.StepKeeps | pkg/server/server.go:66-68 | every system call of every concurrent call, every crash and every write of a pod keeps the invariant on record files |
| Interleaving.WriteKeepsText | pkg/server/hostpath_commands.go:117-127 | writing a record of its own volume over whatever a record file can hold leaves that record, alone or with an unreadable rest behind it |
| Interleaving.ReadableIsTrue | pkg/server/hostpath_commands.go:52-59 | a record file that decodes names its own directory and group and a size that was asked for |
| Interleaving.ReadsListedKeeps | pkg/server/hostpath_commands.go:84-88 | a listing in progress collects a true record for each directory found so far, whatever runs beside it |
| Interleaving.OpensRecordKeeps | pkg/server/hostpath_commands.go:195-199 | opening a record for writing, new or not, keeps every record file with its own volume, also when the name was removed meanwhile |
| Schedules.ReadableRecordsAreTrue | pkg/server/hostpath_commands.go:95-242 | at every moment of every schedule with crashes, a readable record is the record of its own directory with a size that was asked for |
| Schedules.ListingsAreTrue | pkg/server/hostpath_commands.go:63-92 | every listing that ends returns one true record for each directory it found, in order, and these are the directories the group had at one moment of the listing |
| Schedules.AskedOnly | pkg/server/hostpath_commands.go:215-242 | sizes found in records were there at first or were requested by some call |
| Volumes.NewDiskIsEmpty | pkg/server/hostpath_commands.go:68-72 | a new disk holds the empty store, so runs start from a complete store |
| Schedules.RestIsSafe | pkg/server/hostpath_commands.go:63-92 | every complete store at rest is a start for these guarantees |
| Schedules.CreateAlone | pkg/server/hostpath_commands.go:95-133 | the system calls of a create that nothing interrupts add up to the effect of the store method |
| Schedules.ExpandAlone | pkg/server/hostpath_commands.go:215-242 | the same for an expansion: read, remove, create, write |
| Alone.CopyAlone | pkg/server/hostpath_commands.go:145-212 | the same for a clone or a snapshot: read, make directories, walk, write |
| Alone.RemoveAlone | pkg/server/hostpath_commands.go:136-142 | the removals of single entries add up to the removal of the store method, and go on until the directory is gone |
| Alone.ListAlone | pkg/server/hostpath_commands.go:63-92 | a listing that runs alone ends with the record of each directory, or the group cannot be listed |
| Alone.ListGoesOn | pkg/server/hostpath_commands.go:63-92 | a listing that has not ended has a next system call |
| Alone.ReadsRecord | pkg/server/hostpath_commands.go:149-152 | a copy or an expansion reads the record it starts from, and goes on exactly when it is readable |
| Alone.NewRecordExactly | pkg/server/hostpath_commands.go:153-154 | a copy changes the name only, an expansion the size only |
| Alone.MakingGoesOn | pkg/server/hostpath_commands.go:98-107 | while a directory is missing and no file is in the way, the next one can be made |
| Alone.RecordGoesOn | pkg/server/hostpath_commands.go:117-130 | a call whose directories are there can open its record, new or not, and write it |
| Alone.RecordStays | pkg/server/server.go:66-68 | in every schedule the record of a volume stays as it is, readable or not, until a call about that very volume opens, writes or removes it |
| Schedules.RacingCreates | pkg/server/hostpath_commands.go:117-130 | two creates that opened the same new record leave the second size or nothing readable, readable if and only if the second has at least as many digits |
| Schedules.RaceFromEmpty | pkg/server/hostpath_commands.go:95-133 | from an empty disk, for every volume and two sizes, a schedule in which both creates report success and the group is half-made exactly when the second size has fewer digits |
| Schedules.CrashFromEmpty | pkg/server/hostpath_commands.go:98-117 | from an empty disk, for every volume, a schedule in which its create crashes and leaves the group half-made |

## Left out

- Alone.RemoveAlone: speaks of the single removals; the step that ends a removal may come at any time in a schedule and report anything, which allows more schedules than the code has.
- Interleaving.StepKeeps: a write of a record is one step, so torn writes of a single `meta.json` are not modelled, and neither is the order in which a crashed machine's disk keeps unsynchronised writes.
- HostPath.HostPathCommands.CopyTree: the walk visits entries parent before child in an order the model leaves open; lexical order is one of them. Faults of the medium, permissions, ownership, links and timestamps are not modelled, so "the copy succeeded" means a fault-free walk; the code drops the walk's errors.
- HostPath.HostPathCommands.CreateSnapshot: takes proper names only, and shares the copying steps with CloneVol in the model; the two bodies in the code are the same up to names.
- Copies.CopyElsewhere: speaks of two volumes of one group, the only pairs the code copies between.
- Clusters.RunRefines: requests follow one another; requests that overlap are the subject of Interleaving, which guarantees the records but not the data of concurrent copies.
- Paths.LayoutStrings: speaks of non-empty names without `/`, as Kubernetes object names are; what other strings denote is stated for removal and for a missing name or group only, in `Paths.VolDirBelowRoot`, `Paths.NamelessIsGroup` and `Paths.GrouplessIsGroup`.
- HostPath.HostPathCommands.GetVolMeta: takes non-empty names without `/`; the code checks nothing here.
- HostPath.HostPathCommands.ListVol: takes non-empty names without `/` that are not `.` or `..`; the code checks nothing here.
- HostPath.HostPathCommands.CreateVol: takes non-empty names without `/` that are not `.` or `..`; the code checks nothing here.
- HostPath.HostPathCommands.CloneVol: takes non-empty names without `/` that are not `.` or `..`; the code checks nothing here.
- HostPath.HostPathCommands.ExpandVol: takes non-empty names without `/` that are not `.` or `..`; the code checks nothing here.
- Remote.Server.ListVol: takes non-empty names without `/` that are not `.` or `..`; the code checks nothing here.
- Remote.Server.CreateVol: takes non-empty names without `/` that are not `.` or `..`; the code checks nothing here.
- Remote.Connection.GetVolume: takes non-empty names without `/` that are not `.` or `..`; the code checks nothing here.
- Remote.Connection.CreateVolume: takes non-empty names without `/` that are not `.` or `..`; the code checks nothing here.
- Remote.Connection.CreateSnapshot: takes non-empty names without `/` that are not `.` or `..`; the code checks nothing here.
- Remote.Connection.DeleteVolume: takes non-empty names without `/` that are not `.` or `..`; the code checks nothing here.
- Remote.Connection.DeleteSnapshot: takes non-empty names without `/` that are not `.` or `..`; the code checks nothing here.
- Remote.Connection.ExpandVolume: takes non-empty names without `/` that are not `.` or `..`; the code checks nothing here.
- CsiController.Controller.EnsureVolume: takes non-empty names without `/` that are not `.` or `..`; the code checks nothing here.
- CsiController.Controller.DeleteSnapshot: takes non-empty names without `/` that are not `.` or `..`; the code checks nothing here.
- CsiGroupController.GroupController.CreateVolumeGroupSnapshot: takes non-empty names without `/` that are not `.` or `..`; the code checks nothing here.
- CsiGroupController.GroupController.SnapshotSource: takes non-empty names without `/` that are not `.` or `..`; the code checks nothing here.
- CsiGroupController.GroupController.DeleteVolumeGroupSnapshot: takes non-empty names without `/` that are not `.` or `..`; the code checks nothing here.
- Volumes.CopyOverTaken: does not say what the data becomes where a copy meets the files of a volume that is already there; on itself every file is emptied (`HostPath.HostPathCommands.CopyTree`).
- FailStop.DeletesMistakenExactly: is about incomplete directories without a record file; for a record that does not decode the error quotes the file's contents as well, and only the sufficient condition of `FailStop.DeletesMistaken` is stated.
- HostPath.HostPathCommands.RemoveVol: takes names without `.` and `..` components, which the kernel would resolve upwards.
- HostPath.HostPathCommands.RemoveSnapshot: takes names without `.` and `..` components, which the kernel would resolve upwards.
- CsiController.Controller.CreateVolume: takes a proper group and name; a request without the group parameter makes its volume beside the groups. Checks of capabilities and access modes, and of the limit in the capacity range, are not part of this model; they end a request before anything is asked of a node.
- CsiController.Controller.CreateSnapshot: takes a proper snapshot name or none.
- Strings.ToLowerIdempotent: lower-casing is modelled on ASCII letters, all that object names can contain.
- Json.ParseWritten: texts are sequences of characters, without UTF-8 encoding and its replacement of invalid bytes, and without the nesting limit of `encoding/json`; records never nest more than two levels.
- Location.LocationRoundTrip: how the external provisioner builds a volume object is taken from the CSI specification (context to attributes, topology to the first affinity term); its own failures are not modelled.
- CsiController.Controller.DeleteVolume: the error text of a listing is kept except the reason a record does not decode; other error texts are abbreviated.
- Cluster objects (volumes, claims, snapshot contents, nodes) are maps given to the controller; listers, informers, client set-up and signal handling are not modelled.
- gRPC dialling, interceptors, logging, metrics and flags are not modelled; a remote call is carried out or not, and its reply arrives or not.
- Mounting, block devices, file-system statistics and node publishing (pkg/driver/agent.go, pkg/utils/os_tool.go) are left out; a pod is an arbitrary change below the mount point it was given.
- `NewSnapshotParams`, `ListVolumes`, `ListSnapshots`, `GetCapacity`, publish and stage calls and `GetVolumeGroupSnapshot` are left out: unused by the flows above, or stubs.
- A snapshot content without a volume handle makes the code crash; the model's content objects always name their source.
