# dcmanon in Dafny

This project models `dcmanon`, a small DICOM anonymiser. All of its work happens in the constructor of class `dcmanon`:

1. It builds the list of elements to blank: `PatientName`, `PatientBirthDate`, then any extra tags.
2. It checks that the source folder exists.
3. It makes the output folder and the participant's folder `out/id`.
4. It walks the source tree top-down. For every directory `d` the walk reports, it lists the entries whose names end with the extension. When there is at least one, it makes `out/id/d` and handles each entry in turn:
   - reads the dataset;
   - blanks every listed element;
   - sets `PatientID` to the id;
   - saves the result as `out/id/d/<name>`, where the name has every occurrence of the source folder's last path component replaced by the id.

The model has six modules, one file each:

- `wrappers.dfy`, module `Wrappers`: `Option` and `Result`.
- `text.dfy`, module `Text`: Python's `str.endswith`, `str.split`, `str.join` and `str.replace`. `str.replace` replaces every non-overlapping occurrence, left to right, and an empty token puts the replacement between all characters and at both ends. The module proves these operations against each other.
- `paths.dfy`, module `Paths`: `os.path.join` of two POSIX paths, and `path.split('/')[-1]`.
- `tree.dfy`, module `Tree`: the source tree as a value. It covers what a directory lists, the `dirs` that `os.walk` reports, the extension filter, and the top-down walk order.
- `dataset.dfy`, module `Dataset`: the scrub of one dataset (a map from element keyword to value) and the exceptions the run can raise. The element loop is a method proved against the scrub function.
- `anon.dfy`, module `Anonymise`: the run, its properties, and the code as written against the code as intended.
  - The run is specified as functions over values. `Run` folds `Session` over the walk order. An exception is a `failure` in the state; once set, it makes every later step do nothing, and the partial output stays.
  - The class `Anonymiser` is the constructor as it runs. Its fields are the instance's element list, the output directories, the written files and the exception. Its constructor is proved to end in exactly the state `Run` gives.

The source tree is an immutable value, so nothing the run does can change a source file. The output side is a set of directory paths plus a map from file path to saved dataset. Files already present in `out` are part of the initial state.

Three behaviours of the code are easy to miss:

- The output name replaces every occurrence of the token, not the first one only, since `str.replace` is called without a count.
- Only the subdirectories reported by `os.walk` are listed; files lying directly in the source folder are never processed. Each listed directory's entries are filtered by name only, so a subdirectory whose name ends with the extension is selected too. The reader then rejects it, which stops the run (`NotReadable`).
- A missing element raises an exception and stops the whole run: the element lookup in `ds.data_element(b).value = ''` fails. There is no per-file recovery.

## Model

| member | source | states |
|---|---|---|
| Anonymise.Elements | dcmanon.py:28-31 | The element list is `PatientName`, `PatientBirthDate`, then the tags in caller order with duplicates kept; its length is 2 plus the number of tags; without tags it is the two base elements. |
| Anonymise.SubjectDir | dcmanon.py:41 | The participant's folder `join(out, id)` lies under `out` when the id is not absolute, and its last component is the id when the id is a plain name. |
| Anonymise.SessionDir | dcmanon.py:53 | A session folder `join(out/id, d)` lies under the participant's folder when the directory's name is not absolute, and its last component is that bare name when it is a plain name. |
| Anonymise.MakeDir | dcmanon.py:37-38 | After `if not exists(p): mkdir(p)` the path exists, no file changes, at most `p` is added, and an existing path leaves the filesystem unchanged. |
| Anonymise.Setup | dcmanon.py:36-42 | After setup, `out` and `out/id` both exist; no file changes; no directory other than those two is added. |
| Anonymise.SetupIdempotent | dcmanon.py:37-42 | Running the setup a second time changes nothing. |
| Anonymise.Run | dcmanon.py:13-76 | The intended run ends without an exception exactly when the source exists and every matching entry of every directory below it is a readable file whose dataset holds every listed element and `PatientID`. So a missing source, an unreadable entry or an absent element anywhere stops the run; `MissingSource`, `RunWritesScrubbedCopies`, `RunWritesEveryMatch` and `SparseMirrorBelow` state what the run leaves behind. |
| Anonymise.RunWith | dcmanon.py:33-76 | Whatever list the file loop blanks, or none when its name is unbound, the run ends without an exception exactly when the source exists and every matching entry below it goes through. |
| Anonymise.RunAsWritten | dcmanon.py:66 | The run as written ends without an exception exactly when the source exists and no directory below it has a matching entry; `AsWrittenWritesNothing` and `AsWrittenRaisesWhereIntendedWrites` state what it leaves behind. |
| Anonymise.UnboundBelow | dcmanon.py:66 | With `elements` unbound, every matching entry below the source goes through exactly when there is none. |
| Anonymise.WriteOne | dcmanon.py:60-76 | Handling one entry never creates a directory, and an entry that raises leaves the filesystem as it was. |
| Anonymise.WriteOneHandled | dcmanon.py:60-70 | An entry goes through exactly when no exception was pending and it is a readable file whose dataset holds every listed element and `PatientID`, with the name `elements` bound. |
| Anonymise.WriteOneSaved | dcmanon.py:60-76 | An entry that goes through was read, scrubbed cleanly and saved at its output path, and nothing else changed. |
| Anonymise.WriteOneRaises | dcmanon.py:66-70 | A readable entry whose scrub fails raises the scrub's exception. |
| Anonymise.WriteAll | dcmanon.py:58 | A directory's file loop ends without an exception exactly when it started without one and every entry goes through. |
| Anonymise.AllHandledIff | dcmanon.py:58 | Every entry of a list goes through, as the recursive predicate says, exactly when each member does. |
| Anonymise.Session | dcmanon.py:48-58 | A walked directory ends without an exception exactly when none was pending and every matching entry goes through. |
| Anonymise.Sessions | dcmanon.py:44-46 | The walk ends without an exception exactly when none was pending and every matching entry of every walked directory goes through. |
| Anonymise.EveryHandledIff | dcmanon.py:44-46 | The recursive predicate over the walked directories holds exactly when every matching entry of every one of them goes through. |
| Anonymise.MissingSource | dcmanon.py:33-34 | The run ends with the missing-input exception exactly when the source folder does not exist, and in that case the output filesystem is untouched: nothing is created or written. |
| Anonymise.WriteAllNoMissingInput | dcmanon.py:58-76 | Handling the entries of a directory never raises the missing-input exception. |
| Anonymise.SessionsNoMissingInput | dcmanon.py:44-76 | The walk never raises the missing-input exception. |
| Anonymise.RunMakesOutputRoot | dcmanon.py:37-42 | With an existing source, `out` and `out/id` exist after the run, even when the walk raised; no directory or file that existed before is removed. |
| Anonymise.Script | dcmanon.py:9-13 | The intended script (the class instantiated with the parsed arguments) fails with missing input exactly when the source is missing, and otherwise leaves `out` and `out/id` in place. |
| Tree.Subdirs | dcmanon.py:44-46 | The `dirs` the walk reports for a directory are exactly its subdirectory entries, with their multiplicities, in listing order. |
| Tree.Matching | dcmanon.py:48 | The selected entries are exactly those whose names end with the extension (case-sensitive), with multiplicities, in listing order: none is dropped and none is added. |
| Tree.WalkOrder | dcmanon.py:44-46 | The walk reports only directories. |
| Tree.WalkOrderAll | dcmanon.py:44-46 | The walk reports exactly the directories below the source folder. |
| Tree.WalkOrderMembers | dcmanon.py:44-46 | The walk reports a node exactly when it is a directory somewhere below the source folder (a subdirectory of it, or below one of its entries). |
| Tree.BelowMembers | dcmanon.py:44-46 | What the walk reports below a list of entries is exactly the directories below one of them. |
| Tree.DirBelowSmaller | dcmanon.py:44-46 | A directory below another is strictly contained in it. |
| Tree.WalkSkipsTop | dcmanon.py:44-46 | The walk never reports the folder it starts from. |
| Tree.BelowSubdirs | dcmanon.py:44-46 | Files among a directory's entries contribute nothing further down the walk. |
| Tree.SubdirsIdempotent | dcmanon.py:44-46 | Taking the subdirectories of a list of subdirectories changes nothing. |
| Tree.WalkIgnoresTopFiles | dcmanon.py:44-46 | The walk order does not depend on the source folder's own name or on the files directly in it. |
| Anonymise.RootFilesIgnored | dcmanon.py:44-48 | The whole run is the same with or without the files lying directly in the source folder: they are never processed. |
| Anonymise.SessionGrows | dcmanon.py:48-76 | A walked directory adds at most its own output folder `out/id/d`. It changes nothing when no entry matches. When an entry matches and no exception was pending, its folder exists afterwards. It never removes a file. |
| Anonymise.SessionsCreateOnlyMatchedDirs | dcmanon.py:44-54 | Every folder the walk creates is `out/id/d` for a walked directory `d` with at least one matching entry. |
| Anonymise.SessionsReachMatchedDirs | dcmanon.py:44-54 | When the walk ends without an exception, every walked directory with a matching entry has its output folder. |
| Anonymise.SparseMirror | dcmanon.py:44-54 | After setup, the run creates only the folders `out/id/d` of walked directories that have a matching entry, and all of them when no exception stops it. Each folder is keyed by the directory's bare name. |
| Anonymise.SparseMirrorBelow | dcmanon.py:44-54 | Stated over the source tree itself: every folder the run creates is `out/id/d` for a directory `d` anywhere below the source folder with a matching entry, and without an exception every such directory has its folder. |
| Anonymise.WriteAllGrows | dcmanon.py:58-76 | Saving a directory's entries creates no directory and removes no file. |
| Anonymise.SessionsGrow | dcmanon.py:44-76 | The walk removes no directory and no file. |
| Anonymise.WriteAllAfterFailure | dcmanon.py:58-76 | Once an exception has been raised, the remaining entries do nothing. |
| Anonymise.SessionsAfterFailure | dcmanon.py:44-76 | Once an exception has been raised, the remaining directories do nothing. |
| Anonymise.WriteAllFailureSticks | dcmanon.py:58-76 | A directory's loop that ends without an exception started without one: an exception is never cleared. |
| Anonymise.SessionsFailureSticks | dcmanon.py:44-76 | A walk that ends without an exception started without one. |
| Anonymise.WriteAllStep | dcmanon.py:58 | Handling the entries from the `i`-th on is handling the `i`-th, then the rest. |
| Anonymise.SessionsStep | dcmanon.py:46 | Walking the directories from the `i`-th on is handling the `i`-th, then the rest. |
| Anonymise.SessionsAppend | dcmanon.py:44-46 | Walking `a + b` is walking `a`, then `b`. |
| Dataset.ClearFields | dcmanon.py:66-67 | Blanking succeeds exactly when every listed element is present. It then keeps the keys and sets exactly the listed elements to ''. Otherwise it fails on the first absent element, naming it. |
| Dataset.Scrub | dcmanon.py:66-70 | The scrub succeeds exactly when every listed element and `PatientID` are present. The result has the same keys, `PatientID` equal to the id (even when `PatientID` is also listed), every other listed element '' and every other element unchanged. A failure names an absent element. |
| Dataset.ScrubSucceeds | dcmanon.py:66-70 | The scrub goes through exactly when the dataset holds `PatientID` and every listed element. |
| Dataset.ScrubRecord | dcmanon.py:66-70 | The element loop, which changes the dataset one element at a time and stops at the first absent element, computes exactly the scrub. |
| Dataset.ScrubIdempotent | dcmanon.py:66-70 | Scrubbing a scrubbed dataset again changes nothing. |
| Anonymise.AccountedInsert | dcmanon.py:76 | Saving a scrubbed copy of a matching entry keeps every file accounted for. |
| Anonymise.WriteOneAccounted | dcmanon.py:60-76 | Handling one matching entry keeps every file accounted for: each is an untouched earlier file or a scrubbed copy saved at its output path. |
| Anonymise.WriteAllAccounted | dcmanon.py:58-76 | Handling a directory's matching entries keeps every file accounted for. |
| Anonymise.SessionsAccounted | dcmanon.py:44-76 | The walk keeps every file accounted for. |
| Anonymise.RunWritesScrubbedCopies | dcmanon.py:44-76 | Every file in the output after a run is either an earlier file, unchanged, or the scrubbed dataset of a matching entry `f` of a walked directory `d`, saved at `out/id/d/<renamed f>`. In such a copy the listed elements are '', `PatientID` is the id and every other element is unchanged. |
| Anonymise.SessionWritesMatch | dcmanon.py:48-76 | A directory handled without an exception saves each of its matching entries at that entry's output path. |
| Anonymise.SessionsWriteEveryMatch | dcmanon.py:44-76 | A walk that ends without an exception has saved every matching entry of every walked directory at its output path. |
| Anonymise.RunWritesEveryMatch | dcmanon.py:44-76 | A run that ends without an exception has saved every matching entry of every directory below the source folder at `out/id/d/<renamed entry>`. |
| Anonymise.OutPathsMembers | dcmanon.py:76 | A path is among a directory's output paths exactly when some matching entry is saved there. |
| Anonymise.WriteOneWrites | dcmanon.py:60-76 | An entry handled without an exception adds exactly its own output path to the files. |
| Anonymise.WriteAllWritesEach | dcmanon.py:58-76 | A directory's loop that completes writes exactly one output path per matching entry, and nothing else. |
| Anonymise.WriteAllCount | dcmanon.py:58-76 | When the renamed output paths are distinct and new, the number of files grows by exactly the number of matching entries. |
| Anonymise.SessionWritesEach | dcmanon.py:48-76 | A walked directory that completes writes one output per matching entry at that entry's output path. The file count grows by the number of matching entries unless renamed paths collide or already exist. |
| Text.EndsWith | dcmanon.py:48 | `s.endswith(x)` holds exactly when `x` is no longer than `s` and `s` is its own prefix followed by `x`. |
| Text.ReplaceAll | dcmanon.py:73 | `str.replace` with no count is, for a non-empty token, splitting at the token and joining with the replacement; for the empty token it is joining the characters, with empty ends, by the replacement. |
| Text.EndsWithIff | dcmanon.py:48 | `s.endswith(x)` holds exactly when `s` is some prefix followed by `x`. |
| Text.SplitOn | dcmanon.py:73 | `str.split` always returns at least one piece. |
| Text.SplitJoin | dcmanon.py:73 | Joining the pieces of a split with the separator gives back the string. |
| Text.SplitPiecesFree | dcmanon.py:73 | No piece of a split contains the separator. |
| Text.SplitFirstCut | dcmanon.py:73 | The split cuts at the leftmost occurrence: the first piece is a prefix in which no occurrence starts; with more pieces the separator follows it and the rest is the split of what comes after; with one piece, the piece is the whole string. |
| Text.SplitFirstPrefix | dcmanon.py:73 | The first piece of a split is a prefix of the string. |
| Text.SplitNoEarlierSep | dcmanon.py:73 | No occurrence of the separator starts inside the first piece of a split. |
| Text.SplitTail | dcmanon.py:73 | With more than one piece, the separator follows the first piece and the rest of the string splits into the remaining pieces. |
| Text.JoinLast | dcmanon.py:73 | A join of two or more pieces ends with the separator and the last piece. |
| Text.ReplaceIsSplitJoin | dcmanon.py:73 | Replacing every non-overlapping occurrence of a non-empty token, left to right, is splitting at it and joining with the replacement. |
| Text.ReplaceBySelf | dcmanon.py:73 | Replacing a token by itself changes nothing. |
| Text.ReplaceAbsent | dcmanon.py:73 | A string that does not contain the token is unchanged by the replacement. |
| Text.ReplaceChanges | dcmanon.py:73 | A string that contains the token changes when the replacement differs from it. |
| Text.ReplaceFixedIff | dcmanon.py:73 | A replacement leaves a string unchanged exactly when the replacement equals the token or the token does not occur. |
| Text.ReplaceLength | dcmanon.py:73 | The replaced string's length is the original length plus, for each non-overlapping occurrence, the difference between replacement and token lengths. |
| Text.EmptyTokenReplace | dcmanon.py:73 | Putting the replacement before, between and after all characters, which is what an empty token does, is joining the characters, with empty ends, by the replacement. |
| Text.InsertIsJoin | dcmanon.py:73 | Inserting the replacement everywhere is joining the characters, with empty ends, by the replacement. |
| Text.InsertNothing | dcmanon.py:73 | Inserting the empty string everywhere changes nothing. |
| Text.InsertLength | dcmanon.py:73 | Inserting a replacement everywhere adds at least one copy of it. |
| Paths.Join | dcmanon.py:76 | `os.path.join(a, b)` is `b` when `b` is absolute. Otherwise it is `a`, then one '/' unless `a` is empty or already ends in '/', then `b`. |
| Paths.LastComponent | dcmanon.py:73 | `path.split('/')[-1]` has no '/', is a tail of the path, and is either the whole path or preceded by '/'. |
| Paths.LastPieceFacts | dcmanon.py:73 | The last piece of a split at '/' has no '/', ends the path, and follows a '/' unless it is the whole path. |
| Paths.LastComponentUnique | dcmanon.py:73 | Any '/'-free tail that is the whole path or follows a '/' is the last component. |
| Paths.LastComponentOfJoin | dcmanon.py:76 | The last component of `join(a, b)` is `b` for a non-empty name `b` without '/'. |
| Paths.TrailingSlash | dcmanon.py:73 | A source path that ends in '/' has an empty last component. |
| Anonymise.OutNameKeepsName | dcmanon.py:73 | An output name equals the entry's name exactly when the id equals the source folder's last component or that component does not occur in the name. |
| Anonymise.TrailingSlashInterleaves | dcmanon.py:73 | With a source path ending in '/', the output name is the id before, between and after every character of the entry's name. |
| Anonymise.AbsentChar | dcmanon.py:73 | A name lacking some character of the token does not contain the token. |
| Anonymise.WriteAllUnboundWritesNothing | dcmanon.py:66 | With `elements` unbound, handling a directory's entries saves no file. |
| Anonymise.SessionsUnboundWriteNothing | dcmanon.py:66 | With `elements` unbound, the walk saves no file. |
| Anonymise.AsWrittenWritesNothing | dcmanon.py:66 | The constructor as written never saves a file, whatever the source tree. |
| Anonymise.WriteAllUnbound | dcmanon.py:66 | As written, a directory's loop matches the intended one while saving nothing, or raises the name error. |
| Anonymise.SessionsUnbound | dcmanon.py:66 | As written, the walk matches the intended one while saving nothing, or raises the name error. |
| Anonymise.AsWrittenRaisesWhereIntendedWrites | dcmanon.py:66 | Whenever the intended run saves a file, the run as written raises the name error and saves nothing. |
| Anonymise.ScriptAsWritten | dcmanon.py:9 | The script as written ends after parsing its arguments, without an exception and with the filesystem unchanged. |
| Anonymise.ExampleWalk | dcmanon.py:44-46 | For the tree `study/{notes.IMA, ses-01/{scan1.IMA, scan2.txt}}`, the walk reports only `ses-01`. |
| Anonymise.ExampleMatching | dcmanon.py:48 | Of `ses-01`, only `scan1.IMA` is selected for `.IMA`. |
| Anonymise.ExampleLast | dcmanon.py:73 | The last component of `data/study` is `study`. |
| Anonymise.ExampleKeep | dcmanon.py:73 | `scan1.IMA` does not contain `study`, so renaming leaves it as it is. |
| Anonymise.ExampleOutName | dcmanon.py:73 | With source `data/study` and id `sub-007`, the output name of `scan1.IMA` is `scan1.IMA`. |
| Anonymise.ExampleDirs | dcmanon.py:41-54 | The participant's folder is `out/sub-007` and the session folder is `out/sub-007/ses-01`. |
| Anonymise.JoinPlain | dcmanon.py:76 | Two relative names with no '/' at the seam are joined by a single '/'. |
| Anonymise.ExampleOutPath | dcmanon.py:76 | The scan is saved at `out/sub-007/ses-01/scan1.IMA`. |
| Anonymise.ScrubWithoutTags | dcmanon.py:28-70 | Without tags, a dataset holding the base elements and `PatientID` scrubs to the dataset with those three overwritten. |
| Anonymise.ExampleScrub | dcmanon.py:66-70 | The example dataset scrubs to one with name and birth date blank, `PatientID` `sub-007`, and `Modality` unchanged. |
| Anonymise.ExampleFolders | dcmanon.py:37-54 | On an empty output filesystem, setup makes `out` and `out/sub-007`, and the session adds `out/sub-007/ses-01`. |
| Anonymise.SingleSession | dcmanon.py:48-76 | A walk reporting one directory with one cleanly scrubbed matching entry makes that directory's folder and saves exactly that dataset at its output path. |
| Anonymise.SingleSessionAsWritten | dcmanon.py:66 | As written, the same walk makes the folder and then stops with the name error, having saved nothing. |
| Anonymise.ExampleIntended | dcmanon.py:13-76 | The intended run on the example makes `out`, `out/sub-007` and `out/sub-007/ses-01` and saves only the scrubbed scan, without an exception. |
| Anonymise.ExampleAsWritten | dcmanon.py:66 | The run as written on the example makes the same three folders, saves nothing, and ends with the name error. |
| Anonymise.MissingTagScrub | dcmanon.py:28-70 | The example scan lacks `StudyDate`, so with that extra tag the scrub fails naming it. |
| Anonymise.SingleSessionRaises | dcmanon.py:48-76 | A walk reporting one directory whose one matching entry raises makes that directory's folder, then stops with that exception. |
| Anonymise.ExampleMissingTag | dcmanon.py:13-76 | With the extra tag `StudyDate`, which the scan lacks, the intended run makes the three folders, saves nothing and ends with the missing-element exception. |
| Anonymise.ExampleScript | dcmanon.py:9 | The script as written leaves the example's filesystem empty; the intended script saves the scrubbed scan. |
| Anonymise.Anonymiser.constructor | dcmanon.py:13-76 | The constructor keeps its arguments and builds the element list. It ends in exactly the state the run specification gives: the missing-input exception, or the output folders and files of the walk together with the exception that stopped it, if any. |
| Anonymise.Anonymiser.MakeDirIfAbsent | dcmanon.py:37-38 | Makes the directory only when the path does not exist, as `MakeDir` specifies. |
| Anonymise.Anonymiser.Walk | dcmanon.py:44 | The method walks top-down: the subdirectories of `top`, then everything below each of them. It ends in the state the walk specification gives for `top`'s walk order. |
| Anonymise.Anonymiser.ProcessDirs | dcmanon.py:46 | The `for d in dirs` loop ends in the state given by handling the directories in order, stopping at the first exception. |
| Anonymise.Anonymiser.ProcessNext | dcmanon.py:46-58 | One turn of the directory loop moves the loop's remaining work one directory on, or ends in the final state when it raises. |
| Anonymise.Anonymiser.ProcessSession | dcmanon.py:48-58 | Lists the matching entries; when there are any, makes the session folder and saves them, ending in the state `Session` specifies. |
| Anonymise.Anonymiser.SaveAll | dcmanon.py:57-58 | The `for f in files` loop ends in the state given by handling the entries in order, stopping at the first exception. |
| Anonymise.Anonymiser.SaveNext | dcmanon.py:58-76 | One turn of the file loop moves the loop's remaining work one entry on, or ends in the final state when it raises. |
| Anonymise.Anonymiser.SaveEntry | dcmanon.py:60-76 | Reading, scrubbing, renaming and saving one entry ends in the state `WriteOne` gives. |

## Left out

- Argument parsing (dcmanon.py:1-9): the arguments are the constructor's parameters. Only the fact that the parsed arguments are never used is modelled, by `ScriptAsWritten`.
- Progress display with tqdm (dcmanon.py:57-59): it does not affect the result.
- DICOM decoding and encoding by `dcmread` and `save_as`. A file's content is the dataset the reader would return, or None when the reader rejects it. Saving stores the dataset in the output map. pydicom's keyword-to-tag lookup is not modelled: an element is present when its keyword is a key.
- Exception messages: only which exception is raised is modelled.
- Operating-system failures are not modelled. These include `mkdir` with a missing parent, `save_as` onto an existing directory, permissions and a full disk. `mkdir` always succeeds on an absent path, and saving always succeeds.
- Paths are compared as plain strings, without normalisation. `os.path.exists` and `mkdir` resolve the path, so spellings of the same folder such as `out` and `out/`, a doubled '/', `.` or `..` count as one folder in Python. In the model they are different paths; for example, with an empty id, setup adds `out/` beside an existing `out`.
- Errors while `os.walk` lists a directory are not modelled; the tree is always fully listable. Symbolic links are not modelled either.
- The order in which the operating system lists a directory is not modelled: it is the order of the node's children, whatever that is. The walk follows that order top-down.
- An output folder inside the source tree is not modelled. The source tree is a separate immutable value, so the walk cannot see folders it creates.
- The batch mode, the directory-name-as-id mode and the mapping file exist in other versions of the tool. They are not part of this model.

## Findings

| source | as written | input that shows it | evidently intended | confidence | as-written member | corrected member |
|---|---|---|---|---|---|---|
| dcmanon.py:66 | The file loop reads the bare name `elements`, which is bound neither locally nor in the module, so the first readable matching entry raises a name error. | The source `data/study` holding `ses-01/scan1.IMA` with a complete dataset: the folders are made, then the run stops at `scan1.IMA` with nothing saved. | Blank the elements of the instance's list, `self.elements`, built on lines 28-31. | not executed | Anonymise.AsWrittenRaisesWhereIntendedWrites | Anonymise.RunWritesScrubbedCopies |
| dcmanon.py:9 | The script parses its arguments and ends; class `dcmanon` is never instantiated, so nothing is anonymised. | Any arguments, for example `data/study sub-007 out`: the output filesystem is left unchanged. | Call `dcmanon(p.dcm, p.id, p.out, p.ext, p.tags)` after parsing. | not executed | Anonymise.ScriptAsWritten | Anonymise.Script |
