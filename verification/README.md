# Veda in Dafny

Veda is a platform of semantic documents. This project models the algorithms of it that carry invariants, and proves what
each of them keeps or computes:

- **Authorization** (`Access`, `Rights`, `ObjectWalk`, `ObjectReach`, `WalkBounds`, `ExclusiveWalk`, `SubjectGroups`,
  `SubjectBounds`, `SubjectMarkers`, `Authorization`, `FilterRuns`, `ExclusiveMembers`, `StoreAnswers`). The engine walks a
  membership graph that may have cycles, with a mask of rights that is intersected along the way, pruned revisits, a memo of checked groups, early exits, a depth guard, an
  exclusive mode, a filter pass and three tracing modes. `ObjectWalk` is a reference walk without memo, early exit and
  tracing; the class `AzContext` is the engine, proved to do what the reference walk does; `ObjectReach` proves that the
  reference walk is plain reachability, flag by flag; `FilterRuns` says when tracing changes the answer, and `StoreAnswers`
  says what an answer means in terms of keys, entries and texts of the store and the groups collected for the user.
- **Rights as text** (`Letters`, `Counters`, `Formats`, `FormatsRoundTrip`, `Texts`). Two encodings of a right, records of
  rights, and 16-bit reference counters.
- **The query language VQL** (`Vql`, `VqlText`, `VqlRoundTrip`, `VqlGreaterEqual`). A lexer fused with a shunting-yard
  parser, the printings it undoes, and the operator whose priority is missing.
- **The numerator** (`IntervalSet`, `Numerator`, `Numeration`). Numbers kept as stored intervals, and the rules by which
  documents get and give back numbers.
- **Document versions** (`Versions`, `VersionScript`, `VersionRuns`, `Uris`). Doubly linked chains of records, kept by a
  script whose own writes trigger it again, and the saves that break them.
- **Stopping workflows** (`Workflow`, `Paths`). A traversal whose mark for the first element is 0.
- **Saving by difference** (`Delta`), **the queue consumer** (`QueueFile`, `Queue`), **the client cache** (`Cache`), **paging**
  (`Paging`), **inherited specifications** (`Inheritance`) and **decimals as text** (`Decimals`).

Conventions. Code that updates state is a class or a method with loops, proved against functions and predicates; what the
state means is proved about those. The access byte is the set of its eight flags (`Access.Flag`): and, or and not are
intersection, union and difference, and "above 15" is "has a prohibition". The authorization store is a function from keys to
results of a lookup; a text in it comes with the rights it is read as, and the theorems hold for every such pairing, the one by
`Formats.RecordRights` included. Other stores are maps. Identifiers are strings and a new one is any that is not taken.
Checksums, iteration orders of hash maps and the time are parameters.

`dafny verify dfyconfig.toml` checks everything.

## Model

| member | source | states |
|---|---|---|
| Authorization.VerdictExact | source/v-authorization/src/authorization.rs:331-425 | The central theorem. Without a filter, and unless a call was cut by the depth guard, a flag is in the answer exactly when it was requested, some group in reach of the object by entries that all carry the flag (or the group of all resources) has a permission for a group of the subject in which the subject's access and the effective access both have the flag, and, where the subject is in an exclusive group, the object gives an exclusive reason |
| StoreAnswers.AnswerInStore | source/v-authorization/src/authorization.rs:331-425 | The same of a run with any tracing modes, in terms of the store and the groups collected for the user: where no filter record is at the object or the groups it names, a flag is in the answer exactly when it was requested; the record "P" of the group of all resources, of the object, or of a group that a way of entries without the marker X, each with the flag, leads to has an entry with the flag and without its prohibition, for the user or for a group collected with the flag; and a user in an exclusive group is given a reason: no membership record, an entry with "cfg:TTLResourcesGroup" in its id, a last entry where none has "_group", an empty record in reach, or an entry, of the object or of a group in reach with "_group", for a group collected with the marker X |
| Authorization.VerdictExactForFewGroups | source/v-authorization/src/authorization.rs:331-425 | The same without mention of the guard, for objects with at most 32 groups in reach, cyclic or not |
| Authorization.VerdictExactForShallow | source/v-authorization/src/authorization.rs:331-425 | And for objects whose groups are acyclic and at most 32 deep, however many there are |
| Authorization.FilteredVerdictExact | source/v-authorization/src/authorization.rs:363-425 | With a filter a run that makes both passes joins what all may do, cut down to the rights the filter leaves, and what the filtered permissions grant |
| StoreAnswers.FilteredAnswerInStore | source/v-authorization/src/authorization.rs:363-425 | With a filter, in the same terms, for runs that make both passes: requested flags that the filter leaves to others and the plain permissions grant, and requested flags that the permissions under the filter grant; one admission for both |
| FilterRuns.NoFilter | source/v-authorization/src/authorization.rs:363-386 | No filter applies where no filter record is found at the object and at the groups its membership record names |
| FilterRuns.FilterFound | source/v-authorization/src/common.rs:262-293 | The first of these with a record decides, whatever is in it: a text of less than three characters is no filter, the first right of a longer one names the filter and says what is left to others, and a text without rights is the filter and leaves nothing |
| FilterRuns.GroupFilterHeeded | source/v-authorization/src/authorization.rs:363-425 | A filter on a group of the object withholds what a permission for the object itself grants, with and without tracing |
| FilterRuns.UntracedExact | source/v-authorization/src/authorization.rs:363-425 | With a filter and without tracing, flag by flag: where the first pass ends early, what the filter leaves of the request and nothing else; otherwise what either pass justifies, given an exclusive reason where one is needed |
| FilterRuns.FirstPassMeans | source/v-authorization/src/authorization.rs:388-393 | An early end means that the first pass asked for something, granted all of it, and found an exclusive reason where one is needed |
| FilterRuns.DirectGrantsEnd | source/v-authorization/src/authorization.rs:306-329 | Where exclusive access is not needed, and the group of everything and the object itself grant all that is asked for, the pass ends early |
| FilterRuns.TracedUntracedIff | source/v-authorization/src/authorization.rs:363-425 | With a filter, tracing makes no difference to the answer if and only if the first pass does not end early or the filtered permissions justify nothing beyond what that pass asked for |
| FilterRuns.SharedGrantHidesFilter | source/v-authorization/src/authorization.rs:388-393 | It does make one: an object whose filter leaves reading to others, who have it, and grants updating; without tracing the answer is reading alone |
| FilterRuns.NestedGrantHeedsFilter | source/v-authorization/src/authorization.rs:264-283 | That the first pass grants all it asks for is not enough for an early end: the answer of an inner call is dropped, and where the last grant comes from a group of a group the filter is heeded |
| Authorization.AzContext.CheckPermission | source/v-authorization/src/authorization.rs:101-167 | One permission adds, flag by flag, what subject, mask, request and its effective access have in common; it stops early only without tracing and with everything requested granted |
| Authorization.AzContext.AuthorizeObjGroup | source/v-authorization/src/authorization.rs:55-186 | Whatever is skipped by the memo, by what is left to check, or by an early return, exactly the grant of the group is collected; the answer is early if and only if, without tracing, this group completed what was asked for |
| Authorization.AzContext.NoteExclusive | source/v-authorization/src/authorization.rs:216-238 | The suffix flag and the exclusive flag after an entry are those of the reference walk; nothing changes once a reason was found or none is needed |
| Authorization.AzContext.MarkGroup | source/v-authorization/src/authorization.rs:205-262 | An entry is passed over exactly where the reference walk passes it over, which is where it has no id, an exclusive marker, or a group walked with these rights before; otherwise its rights join those the group was walked with, which pays for one more visit of the group |
| Authorization.AzContext.PrepareGroup | source/v-authorization/src/authorization.rs:205-284 | One entry: it leaves the state the reference walk has after it, and stops the loop if and only if, without tracing, its group completed all that is needed |
| Authorization.AzContext.PrepareObjGroup | source/v-authorization/src/authorization.rs:188-304 | The recursion with memo, early exit and tracing ends in the state of the reference walk, or both are past the point where anything can change; it answers early if and only if an entry of this record completes all that is needed |
| Authorization.AzContext.AuthorizeObjGroups | source/v-authorization/src/authorization.rs:306-329 | A whole pass: its result is that of the reference pass, or an early answer, given exactly where the group of everything, the object or a first-level entry completes what is needed, and then the reference pass grants the same |
| Authorization.AzContext.FinalCheck | source/v-authorization/src/common.rs:239-260 | Exclusive access is refused exactly when it is needed and no reason was found |
| Authorization.ChooseFilter | source/v-authorization/src/authorization.rs:363-386 | The first of object and first-level groups that has a filter record decides what the first pass asks for |
| Authorization.Authorize | source/v-authorization/src/authorization.rs:331-425 | Every answer is, with tracing, what both passes come to, and without it the same unless the first pass ends early, when it is what the filter leaves of the request; an error is that of a failed lookup |
| Authorization.AuthorizeTwice | source/v-authorization/src/authorization.rs:331-425 | Tracing is transparent: without a filter two runs with any tracing modes give the same access, in exclusive mode and outside it |
| ObjectReach.PassSound | source/v-authorization/src/authorization.rs:188-329 | Guard or no guard, whatever a pass adds is justified by a path of at most 33 entries that all carry the flag |
| ObjectReach.PassCovered | source/v-authorization/src/authorization.rs:188-329 | When no call was cut, every group that was walked with a flag was checked for it, and its own groups were walked with what their entries leave of the mask |
| ObjectReach.PassExact | source/v-authorization/src/authorization.rs:188-329 | When no call was cut, a pass grants exactly what was granted before and what is justified by some path: pruning revisits loses and adds nothing |
| ObjectWalk.GrantFlag | source/v-authorization/src/authorization.rs:94-169 | The grant of a group, accumulated over its permissions, has a flag exactly when it was requested, is in the mask, and some permission allows it to some subject |
| WalkBounds.PassWork | source/v-authorization/src/authorization.rs:188-304 | On any graph a pass goes down into each group at most five times, into the object at most six times: each visit adds the group or one of four flags to the walked groups |
| WalkBounds.FewGroupsUncut | source/v-authorization/src/authorization.rs:188-200 | With at most 32 groups in reach the depth guard never cuts, since a group is not repeated on one way down |
| WalkBounds.ShallowObjectUncut | source/v-authorization/src/authorization.rs:188-200 | Nor does it for acyclic groups at most 32 deep; entries that name their own resource do not count |
| WalkBounds.GuardLosesDeepGrant | source/v-authorization/src/authorization.rs:188-196 | The hypothesis on the guard is needed: a chain of groups in which reading is granted in reach, and the pass does not find it |
| WalkBounds.GuardLosesNearGrant | source/v-authorization/src/authorization.rs:188-262 | Not only far away: a grant two entries from the object is lost when the group in between is first met at level 33, where it is marked but cut, so that its nearer entry is pruned |
| ExclusiveWalk.PassExclusive | source/v-authorization/src/authorization.rs:216-300 | When no call was cut, the exclusive flag is found exactly when it was before or there is a reason at the object or at a group in reach |
| ExclusiveMembers.SharedExclusiveGroup | source/v-authorization/src/authorization.rs:216-238 | A user that all entries in reach put into a group as an exclusive one has a reason at every object whose membership record names that group |
| ExclusiveMembers.SharedExclusiveVerdict | source/v-authorization/src/authorization.rs:331-425 | So the answer for such a user and object is what the permissions justify, as if exclusive access were not required |
| SubjectGroups.Collector.GetResourceGroups | source/v-authorization/src/common.rs:66-174 | The recursion that inserts into two maps computes the function Collect, or fails with the code of a failed lookup; it ends on every cyclic graph |
| SubjectGroups.SubjectClosure | source/v-authorization/src/common.rs:66-174 | The stored groups and the user are the user and the groups in reach by non-empty memberships, unless a call was cut; each stored access is the low nibble of an actual entry for the group in another record in reach, and each stored marker is that of such an entry |
| SubjectMarkers.OneMarker | source/v-authorization/src/common.rs:137-160 | A group that all entries in reach, of other records, name with one marker is stored with that marker |
| SubjectMarkers.OneAccess | source/v-authorization/src/common.rs:66-174 | One that they all name with the same rights is stored with these |
| SubjectMarkers.MarkedIff | source/v-authorization/src/common.rs:66-174 | Where no record marks the group it belongs to, and no call was cut, a group is stored with a marker if and only if some entry in reach gives it one |
| SubjectMarkers.SelfMarkerHides | source/v-authorization/src/common.rs:96-110 | That no record marks its own group is needed: an entry of a group for itself is remembered without being stored, and the exclusive entry of another record is then passed over, so that the group has no marker and exclusive access is not required |
| SubjectMarkers.TwoEntries | source/v-authorization/src/common.rs:96-172 | Of two entries for one group the first marker that is not empty stays, and the rights of the second one replace those of the first, unless it has the same marker and no more rights |
| SubjectGroups.ShallowUncut | source/v-authorization/src/common.rs:66-82 | Acyclic memberships at most 32 deep are never cut; an entry that names its own resource does not count |
| SubjectBounds.FewEntriesUncut | source/v-authorization/src/common.rs:66-110 | Cyclic ones neither, when each group is named with one marker and at most 32 different pairs of group and rights are named: on one way down no pair is entered twice |
| SubjectBounds.FlippingIsCut | source/v-authorization/src/common.rs:66-110 | One marker for each group is needed: two groups that name each other with two markers meet the guard, since only the last marker is remembered |
| SubjectGroups.ExclusiveHasCause | source/v-authorization/src/common.rs:128-174 | Exclusive access is required of a user only if memberships that do not switch it off lead to one that names another, exclusive group |
| SubjectBounds.ExclusiveIff | source/v-authorization/src/common.rs:66-174 | And if so, where no entry in reach switches it off or names its own group as exclusive, and no call was cut |
| Letters.FlagOf | source/v-authorization/src/formats.rs:9-49 | The tables from letters to flags and back are inverse to each other: a letter of no flag names none |
| Counters.UpdateCounters | source/v-authorization/src/formats.rs:51-80 | Flag by flag: the counter of a granted flag goes up, that of a deleted one down, in 16 bits; a flag is dropped from the access that comes back exactly when its last grant is deleted |
| Counters.CountersExact | source/v-authorization/src/formats.rs:51-80 | Over every run, a counter is additions minus deletions at every moment if and only if that number always fits 0 to 65535 |
| Counters.Run | source/v-authorization/src/formats.rs:51-80 | Repeated updates make up such a run |
| Formats.DecodeValueV1 | source/v-authorization/src/formats.rs:119-152 | The loop reads each hexadecimal digit four bits above the one before, modulo 32, the last marker counts, and counts every flag once |
| Formats.DecodeValueV2 | source/v-authorization/src/formats.rs:82-117 | The access is the flags whose letters occur; each tag gets the number after its last occurrence, 1 where that is none |
| Formats.DecodeIndexRecord | source/v-authorization/src/formats.rs:154-194 | A record gives one right for each pair of id and non-empty value, in order; the answer is false exactly for the empty text |
| Formats.DecodeRecToRights | source/v-authorization/src/formats.rs:196-200 | The rights of the record are appended, without counters |
| Formats.DecodeRecToRightset | source/v-authorization/src/formats.rs:202-206 | The rights by id, the last one of an id |
| Formats.EncodeValueV2 | source/v-authorization/src/formats.rs:216-243 | Counted letters in the order of the map, with counts above 1, then the flags without a counter in bit order, then a known marker |
| Formats.EncodeRightset | source/v-authorization/src/formats.rs:245-267 | Id and value of every right that is not deleted, in the order of the map; the second encoding from a counter sum of 2 on, added up in 16 bits |
| FormatsRoundTrip.ChunksSpell | source/v-authorization/src/formats.rs:82-117 | Taking a text apart at its tags undoes writing tags with their numbers |
| FormatsRoundTrip.ReadBackV2 | source/v-authorization/src/formats.rs:82-117 | Second encoding: reading gives back id, known marker and counters, and as access the access and the counted flags |
| FormatsRoundTrip.ReadBackV1 | source/v-authorization/src/formats.rs:119-214 | First encoding: reading what was written gives back id and known marker, the access if it is at most 15 and otherwise exactly the access with its nibbles swapped |
| FormatsRoundTrip.RecordRoundTrip | source/v-authorization/src/formats.rs:154-267 | For every order in which the maps are gone through, reading a written record gives back, in order, every right that was not deleted and had anything to print |
| FormatsRoundTrip.RightsetRoundTrip | source/v-authorization/src/formats.rs:202-267 | The same for sets of rights: exactly these ids come back, each with its own right |
| FormatsRoundTrip.WholeIff | source/v-authorization/src/formats.rs:82-267 | A right comes back whole if and only if its positive counters are its flags and, in the first encoding, no counter is above 1 and the byte is at most 15 or the same with its nibbles swapped |
| FormatsRoundTrip.ComesBackIff | source/v-authorization/src/formats.rs:154-267 | Whole record, in plain numbers: a right comes back under its id with its access, marker and counters if and only if it was not deleted, its flags are those with a positive counter, and, where the version is not 1 and the plain sum of the counters modulo 65536 is at least 2, it has a flag or a printed marker, and otherwise no flag is counted twice and the byte is at most 15 or has two equal digits |
| FormatsRoundTrip.BitAndLetter | source/v-authorization/src/formats.rs:9-49 | One flag reads the same from its letter and from its bit in digits, with the count 1 where counts are read |
| FormatsRoundTrip.OneFlagWritten | source/v-authorization/src/formats.rs:208-267 | A record with one right for one flag: its id, the byte in digits where the version is 1 or the flag is counted less than twice and otherwise its letter with the count, and a semicolon behind both |
| FormatsRoundTrip.DigitsMean | source/v-authorization/src/formats.rs:119-152 | Of every eight digits the first one gives the low nibble of the byte, the second one the high nibble, and the others nothing |
| FormatsRoundTrip.HexDigitMeans | source/v-authorization/src/formats.rs:119-152 | Digits of both cases are read, and nothing else |
| FormatsRoundTrip.CountMeans | source/v-authorization/src/formats.rs:82-117 | A count is a number below 65536, with or without a plus in front; anything else counts as 1 |
| FormatsRoundTrip.OrderDoesNotMatter | source/v-authorization/src/formats.rs:254-260 | Which encoding is used, and what is lost, does not depend on the order of the counters |
| Vql.ParseExpr | source/v-ft-xapian/src/vql.rs:63-194 | The loop that lexes and reduces at once computes the same as a lexer followed by the two-stack parser; it panics exactly when that does; what that computes is the rows below |
| VqlRoundTrip.ParsePrint | source/v-ft-xapian/src/vql.rs:63-272 | Every printing with at least the brackets that left association and four groups of operators ask for ("<", "<=", ">", over "==", "===", "!=", "=*", "=+", over "&&", over "&#124;&#124;"), any white space around operators and at the ends, and operands free of their closing mark, parses to its tree and leaves nothing else on either stack |
| VqlRoundTrip.PrintParse | source/v-ft-xapian/src/vql.rs:63-272 | Every tree over the ranked operators, with operands that some mark can enclose, survives printing and parsing, with the fewest brackets and with all of them |
| VqlRoundTrip.ThreeOperands | source/v-ft-xapian/src/vql.rs:254-272 | For any three operands and two operators without brackets between them: the second operator is below the first one if and only if it is in a tighter group |
| VqlText.ParseMeans | source/v-ft-xapian/src/vql.rs:63-194 | The text of any printing, with whatever operators and brackets, leaves on the stacks what feeding its operands, operators and brackets alone leaves |
| VqlText.LexOp | source/v-ft-xapian/src/vql.rs:63-131 | Each of the eleven operators is read as such, and as a whole, before anything but an equality sign |
| VqlText.WordRead | source/v-ft-xapian/src/vql.rs:154-188 | An operand without a mark is read up to a blank, one of & , = < > ! - or a vertical bar, or the end, together with the character that ends it |
| VqlText.WordBracketRead | source/v-ft-xapian/src/vql.rs:154-188 | One bracket at its end is given back, and a quote mark before that bracket is dropped |
| VqlGreaterEqual.ParsesIff | source/v-ft-xapian/src/vql.rs:63-272 | With ">=" given the priority that the table entry "=>" means for it: a text printed so parses to its tree if and only if it has no ">=", or is `l >= r` outside brackets with no ">=" in r and l again such a text |
| VqlGreaterEqual.JoinedIff | public/js/browser/veda_controls.js:2899-2914 | A query that the client joins with the prefix of a control is understood if and only if neither has a ">=" |
| VqlGreaterEqual.GreaterEqualOutside | source/v-ft-xapian/src/vql.rs:254-272 | Outside brackets ">=" between any two operands without it binds looser than everything else |
| VqlGreaterEqual.BracketTakes | source/v-ft-xapian/src/vql.rs:63-210 | Inside brackets, whatever stands before them: the bracket takes with it the left operand and the operand before it, all operators that wait are reduced over what is left, and the last of that becomes the left operand |
| VqlGreaterEqual.GreaterEqualInside | source/v-ft-xapian/src/vql.rs:63-210 | A query that is one bracket with a ">=" keeps nothing but the right operand |
| VqlGreaterEqual.JoinedLosesPrefix | public/js/browser/veda_controls.js:2899-2914 | Joined to a prefix such a query loses the prefix: a conjunction of nothing with nothing is compared with the right operand |
| Numerator.Scope.CommitValue | public/js/common/numerator.js:129-221 | Adds exactly the value and keeps the stored intervals well formed, disjoint and not adjacent; answers false, and changes nothing, exactly when the value was there |
| Numerator.Scope.RevokeValue | public/js/common/numerator.js:223-319 | Removes exactly the value, cutting, splitting or deleting one interval; when the value was not there nothing changes |
| Numerator.Scope.NextValueSimple | public/js/common/numerator.js:329-370 | The next value is the one after the greatest committed number, or 1 if none is positive, so it is above everything committed; an empty scope gives the first value |
| Numerator.Scope.RunAll | public/js/common/numerator.js:129-319 | Over every run of commits and revokes the intervals stay well formed and stand for the set that the run leaves |
| Numerator.Scope.CommitThenRevoke | public/js/common/numerator.js:129-319 | Revoking what was just committed gives the old set back |
| IntervalSet.Merging | public/js/common/numerator.js:129-221 | A value between two intervals: one takes over the other, and the set gains just the value |
| IntervalSet.Revoked | public/js/common/numerator.js:223-319 | What is left of the interval that was hit stands for the set without the value |
| Numeration.Registry.Numerate | public/js/common/numerator.js:32-94 | One event of a document gives out a new number, commits, exchanges or gives back, or restores an erased number; for each branch what is stored and what is committed then |
| Numeration.Registry.Save | ontology/generic-function/veda-numeration.ttl:291-312 | A save triggers the numerator once, since its own save triggers nothing. From a state in which live documents have different numbers and these are the committed ones, any save of any document leaves such a state if and only if it is one of the saves that Keeps names |
| Numeration.Registry.Create | public/js/common/numerator.js:32-94 | A document created without a number gets one above those of all live documents, which is committed |
| Numeration.Registry.Delete | public/js/common/numerator.js:32-94 | Deleting a live document gives back its number and no other |
| Numeration.Registry.DeleteErased | public/js/common/numerator.js:32-94 | Deleted with its number erased, a live document gets the number back and keeps it committed, so that the invariant is lost |
| Numeration.Registry.Run | public/js/common/numerator.js:32-94 | Over every run of saves, up to the first that Keeps does not name, live documents have different numbers, and the committed set is the set of live numbers |
| Numeration.Registry.CreateNumbered | public/js/common/numerator.js:32-94 | A number given by hand is committed, and the invariant survives if and only if it was not before |
| Numeration.Registry.Renumber | public/js/common/numerator.js:32-94 | The same for a live document saved with another number, and the old number is given back |
| Numeration.Registry.Undelete | public/js/common/numerator.js:32-94 | Undeleting never keeps it: nothing is committed again |
| Versions.BackVisitsAll | public/js/server/util.js:281-376 | From the document the links back visit all its versions, newest first, and end |
| Versions.ForwardVisitsAll | public/js/server/util.js:281-376 | From any version the links forward visit the later ones and end with the document: the inverse |
| Versions.Linking | public/js/server/util.js:281-376 | Writing the version, the newest version so far and the document puts the version at the end of the chain and keeps all chains of all documents linked |
| VersionRuns.VersionStore.CreateVersion | source/veda-scripts-v8/src/main.rs:313-346 | One event: the script runs unless the individual was written as one of type v-s:Version, or by this script for the same individual; it makes a version exactly under its condition, from the document as it is stored by then: up to three writes, each of which raises an event; otherwise nothing happens |
| VersionRuns.VersionStore.Drain | source/veda-scripts-v8/src/main.rs:313-346 | On a store with whatever links, of the events that wait at any moment at most one makes a version, each version made leads to at most one more, at the previous version, and the waiting ends |
| VersionScript.KeepsIff | public/js/server/util.js:281-376 | After any save with any links, once all events have run, all chains are there, and versions alone are of type v-s:Version, if and only if a version was saved with its own links, anything else not of that type with the stored previous version and no other actual version, or, not of that type, an individual without versions with a stored individual that is no version as the previous one |
| VersionScript.ProperFires | public/js/server/util.js:281-376 | A document saved with the stored previous version and no other actual version, and not as a version, gets exactly one version at the end of its chain, and nothing more is triggered |
| VersionScript.LinksDropped | public/js/server/util.js:281-376 | A document that has versions, saved without its actual version and with another previous version or none, breaks its chain, whatever the previous version leads to |
| VersionRuns.DropLinks | public/js/server/util.js:281-376 | The input: a document with one version, saved without both links; the new version names the old one, which still leads to the document |
| VersionRuns.VersionStore.Save | public/js/server/util.js:281-376 | The same of the store with its event queue; a proper save of a document adds one version with the saved content and changes no other content, one of a version adds none |
| VersionRuns.VersionStore.Run | public/js/server/util.js:281-376 | Over every run of proper saves, up to the first that is not, all chains stay linked, and each document gains one version for each save of it |
| Workflow.Stopper.StopForms | public/js/server/util.js:385-394 | All incomplete decision forms of an element end up stopped and deleted, and nothing is raised without a reason |
| Workflow.Stopper.StopProcesses | public/js/server/util.js:408-417 | All incomplete processes of an element end up stopped, and each of them, complete or not, is entered |
| Workflow.Stopper.RecursiveCall | public/js/server/util.js:378-418 | It ends on every finite graph, because each entry marks an element or is the first; what is stopped is justified by reach, and whatever was entered is handled or still open |
| Workflow.Stopper.Stop | public/js/server/util.js:378-418 | From an empty path: exactly the incomplete decision forms (also deleted) and processes of elements in reach are stopped, nothing else changes, and the body runs exactly once for every element in reach, once more for the first if and only if an element in reach leads back to it |
| Workflow.ReachByLists | public/js/server/util.js:399-417 | In reach are the first element, the work items, work orders and processes that elements in reach list, and nothing else |
| Delta.Diff | public/js/common/util.js:51-90 | Every predicate goes to exactly one of added, missing and differ, or to none if its list seems unchanged |
| Delta.Stored.IndvApplyCmd | source/v-module/src/module.rs:524-543 | A command changes exactly the predicates of its part, never the update counter, and nothing of an individual without predicates |
| Delta.CommandMeans | source/v-module/src/module.rs:524-543 | What a command leaves of a list that is there or not: adding keeps the old list in front and has just the values of both, setting replaces, and removing leaves each value not named as often as it was and none that is, and drops the predicate when nothing is left |
| Delta.AddUniqueAppends | source/v-onto/src/onto/individual.rs:801-813 | Adding appends: the old list is a prefix, a value is there just when it is in one of the two lists, and what follows the old list has no repeats and none of its values |
| Delta.AddUniqueInTurn | source/v-onto/src/onto/individual.rs:801-813 | In the order in which they come: adding two lists at once is adding one after the other |
| Delta.ExcludeCounts | source/v-onto/src/onto/individual.rs:859-877 | Removing leaves a value as often as it was, or not at all if it is named |
| Delta.ExcludeInOrder | source/v-onto/src/onto/individual.rs:859-877 | And in its order: a value that stays is right behind those that stay of what was before it |
| Delta.Stored.Handle | source/veda-mstorage/src/main.rs:321-426 | A command is refused when nothing is stored, when it is not allowed, or when the storage fails, in this order, and then nothing changes; else it is applied and the counter goes up by one |
| Delta.Save | public/js/common/individual_model.js:473-485 | In all six orders the three commands leave the same under every predicate, and the counter goes up by the number of parts sent |
| Delta.SavedIsChanged | public/js/common/individual_model.js:473-485 | With no value twice in a base list and no identical values in a new list, the server then has the client's predicates, each with the client's values up to order and language |
| Delta.UnchangedIsSame | public/js/common/util.js:66-78 | The test for an unchanged list is right for base lists without repeats |
| Delta.AddedIff | source/v-onto/src/onto/individual.rs:801-813 | For a new predicate the values arrive if and only if no two are identical |
| Delta.RepeatHidesChange | public/js/common/util.js:66-78 | The later of two equal values of a base list replaced by any other value is a change that is not seen |
| Delta.TestRightIff | public/js/common/util.js:66-78 | The test for an unchanged list is right, whatever the list is changed to, if and only if no value repeats in the base list |
| QueueFile.RecordAt | source/veda-gowebserver/queue.go:43-65 | In a file of records each of which starts with its own position, the k-th one stands at the sum of 25 and the message length over those before it |
| QueueFile.HeadRead | source/veda-gowebserver/queue.go:43-65 | Reading the 25 bytes gives back position, length, number, kind and checksum |
| QueueFile.HeadBytes | source/veda-gowebserver/queue.go:43-65 | Byte by byte: eight bytes of the position, four of the length, four of the magic number, four of the number, all with the low byte first, the kind, and the checksum with the high byte first |
| Queue.CheckpointReplaced | source/veda-gowebserver/queue.go:155-179 | The checkpoint is overwritten without truncation, and yet nothing of the one before is left, because its text never gets shorter |
| Queue.OverwriteIff | source/veda-gowebserver/queue.go:155-179 | In general an overwrite leaves just the new text if and only if the old one was not longer, and otherwise the end of the old one stays |
| Queue.CheckpointPieces | source/veda-gowebserver/queue.go:155-179 | Between its semicolons a checkpoint has the names of queue and consumer, the position, the count and the part, in this order |
| Queue.IntegerRead | source/veda-gowebserver/queue.go:181-242 | Numbers in it are read with or without a sign, from -2^63 to 2^63 - 1 |
| Queue.LineEnds | source/veda-gowebserver/queue.go:181-242 | A line ends at its line feed, and one carriage return before that does not count |
| Queue.CheckpointRead | source/veda-gowebserver/queue.go:181-242 | A written checkpoint reads back as the position that was written |
| Queue.Consumer.Pop | source/veda-gowebserver/queue.go:272-310 | The next pop reads message number countPopped, and nothing if there is none |
| Queue.ReadAtByte | source/veda-gowebserver/queue.go:272-310 | A read fills the buffer as far as the file goes and leaves the rest of it as it was |
| Queue.Consumer.CommitAndNext | source/veda-gowebserver/queue.go:321-363 | From any state: it goes on by 25 and the length last read exactly when something is uncommitted and the checksum of what was read last is right |
| Queue.Consumer.Commit | source/veda-gowebserver/queue.go:321-363 | After a read it always succeeds, and consumer and checkpoint stand before the next message |
| Queue.Consumer.CommitAgain | source/veda-gowebserver/queue.go:321-363 | A commit without a read since the last commit is accepted if there is anything to commit, and steps by the length of what was read last; the consumer and its checkpoint stand before the next message if and only if the message passed over is as long |
| Queue.Consumer.CommitTwice | source/veda-gowebserver/queue.go:321-363 | Two commits after one read step twice by the length of the first message, and the position is right if and only if the second one is as long |
| Queue.Consumer.Restart | source/veda-gowebserver/queue.go:109-136 | A new consumer stands before the first message that was not committed |
| Queue.Run | source/veda-gowebserver/queue.go:155-363 | Over every run of pushes, reads, commits after a read and restarts at any time, what was committed is the messages pushed, in order, each once |
| Cache.Store.Sweep | public/js/common/app_model.js:29-35 | Of one list just the first objects go, as many as are still to go or all there are |
| Cache.Store.Evict | public/js/common/app_model.js:26-42 | Eviction takes objects in key order and list order, none of the first key, and stops exactly when there is room for delta objects or no candidate is left |
| Cache.EvictionsMeans | public/js/common/app_model.js:26-42 | Nothing goes below the limit; at it, just enough for delta free places, or all candidates |
| Cache.WithKeyPlace | public/js/common/app_model.js:43-55 | A new key that is no array index, as time stamps are not, comes last, so that eviction meets the oldest lists first; an array index comes behind the smaller ones and before everything else |
| Cache.Store.Set | public/js/common/app_model.js:21-55 | The object goes to the end of the list of its key, behind the objects of that key that eviction, made where the limit is reached, leaves; the count and the lists agree with the storage afterwards if and only if the id was not there or was among those evicted, and otherwise the id is counted twice |
| Cache.Store.Remove | public/js/common/app_model.js:56-72 | Exactly the object leaves storage and its list, an emptied list goes with it |
| Cache.Store.SetThenRemove | public/js/common/app_model.js:21-72 | Caching and removing an object leaves storage, lists and count as they were |
| Cache.Run | public/js/common/app_model.js:12-84 | Over every run the count is the number of stored objects and the total length of the lists |
| Cache.MirrorsMeans | public/js/common/app_model.js:12-84 | The invariant in plain words: each object is in one list entry, under its own id, and there are as many objects as entries |
| Paging.Exec | source/v-ft-xapian/src/xapian_vql.rs:54-129 | A page is what may be seen of the matches from the start to the cursor, which is where the page is full first, or where its window ends; the loop never ends exactly when an entry without an id comes before that |
| Paging.PageStops | source/v-ft-xapian/src/xapian_vql.rs:54-129 | A page goes through as many matches as asked for, 10000 if 0 was asked for, unless the matches end or as many as asked for, 10000 again, have been found before |
| Paging.VisibleCounts | source/v-ft-xapian/src/xapian_vql.rs:54-129 | What may be seen is each match that is allowed, as often as it is among the matches, and nothing else |
| Paging.VisibleInOrder | source/v-ft-xapian/src/xapian_vql.rs:54-129 | In their order: an allowed match comes right behind the allowed ones before it |
| Paging.OneRequestShows | public/js/browser/veda_controls.js:2957-2975 | One request of the client shows up to 10 matches out of up to 1000, and stops before both only at the end of the matches |
| Paging.Progress | source/v-ft-xapian/src/xapian_vql.rs:54-129 | A page with anything in its window gets ahead |
| Paging.IncrementalSearch | public/js/browser/veda_controls.js:2957-2975 | Page after page, no match is skipped or shown twice; with an estimate that can be satisfied, however wrong, it ends with the first request that satisfies the client, and there is an answer if and only if no entry without an id comes before the end of the page of that request |
| Paging.SearchAll | public/js/browser/veda_controls.js:2957-2975 | With an exact estimate the client gets everything it may see, or at least as much as it wanted |
| Paging.EndsIff | public/js/browser/veda_controls.js:2957-2975 | Some request satisfies the client if and only if the estimate is not beyond the matches or enough of the rest may be seen |
| Paging.AsksForEver | public/js/browser/veda_controls.js:2957-2975 | With an estimate beyond the matches and too few of them to be seen no request is the last |
| Inheritance.OntologyModel.FillFrom | public/js/common/ontology_model.js:80-86 | A class gets from a superclass exactly what it does not have |
| Inheritance.OntologyModel.GetSpecs | public/js/common/ontology_model.js:70-92 | The answer is the completed map whatever was asked before, and the writes into the class tree only complete maps |
| Inheritance.OntologyModel.AskTwice | public/js/common/ontology_model.js:70-92 | A later answer to the same question is the same, whatever is asked in between |
| Inheritance.CompleteFound | public/js/common/ontology_model.js:70-92 | A property is specified for a class exactly when the class or one of its superclasses specifies it, and the first one decides, depth first and from left to right |
| Inheritance.AncestryStarts | public/js/common/ontology_model.js:54-92 | This order begins with the class itself, or with rdfs:Resource for an unknown class, and goes on with all that the first superclass leads to |
| Inheritance.PropsFrom | public/js/common/ontology_model.js:54-68 | The properties of a class are its own and those of its superclasses, each once |
| Inheritance.PropertiesInOrder | public/js/common/ontology_model.js:54-68 | They come class by class in this order, and a repeat keeps its first place |
| Inheritance.Unique | public/js/common/util.js:342-351 | The loop keeps the first occurrence of each id, in order |
| Inheritance.FirstOnesInOrder | public/js/common/util.js:342-351 | An id that is met for the first time comes right behind those met before it |
| Decimals.DecimalToString | source/veda-gowebserver/individual.go:270-309 | The text means mantissa times ten to the exponent if and only if the exponent is not negative, or there are more digits than decimal places, or there is only one digit; and the mantissa has a negation in 64 bits |

## Left out

- Texts of traces, log lines and error messages, and the fiber yields of the storage; tracing modes are modelled by what they switch off.
- Authorization.FilteredVerdictExact: describes runs that make both passes; the runs that stop after the first are in FilterRuns.
- SubjectGroups.ExclusiveHasCause: one direction only, because which memberships are gone through with exclusive access switched off depends on the order of the entries; SubjectBounds.ExclusiveIff is about memberships that do not switch it off.
- FilterRuns.TracedUntracedIff: whether the first pass ends early is told from the reference walk, entry by entry; paths alone do not tell it where an object names itself among its groups, because the walk does not come back to it then.
- Authorization.ChooseFilter: the length of a filter record counts characters, where the engine counts bytes; a lookup that fails while a filter is looked for counts as no filter, as in the engine.
- Authorization.AzContext.PrepareObjGroup: lookups of memberships that fail with a negative code end the run with that code; the walk theorems are about runs that end with an access.
- Formats.DecodeValueV1: shifts by 32 bits and more are those of a release build, modulo 32; a build with overflow checks panics there, as it does where counters or their sum leave 16 bits.
- Formats.EncodeRightset: the keys of a set of rights are the ids of its rights.
- Vql.ParseExpr: works on characters, not on the bytes of UTF-8; every mark it looks for is a single byte.
- VqlRoundTrip.ParsePrint: operands without quotes are not part of the round trip, but of VqlText.WordRead, and ">=" is in VqlGreaterEqual.
- Numerator.Scope.CommitValue: stored values are integers, the record of the scope exists, and errors of the store are not modelled; createScope, the choice of a scope by an evaluated script, and getNextValueSimple's string result are not part of this model.
- Numeration.Registry.Run: the first value is positive, since the number 0 counts as none; one scope and one numbered property; saves by scripts, which do not trigger the numerator, and saves between another save and its event are not modelled.
- VersionRuns.VersionStore.Run: events of one external save are drained before the next; memberships and permissions of versions are only recorded.
- VersionRuns.VersionStore.CreateVersion: all individuals are of a class with versions, and no save is that of an administrator; where the previous version that a document names is not stored, the script stops after writing the version; the limit of 100 runs of a script for one individual within one cascade is not part of this model.
- Workflow.Stopper.Stop: whatever an element refers to is stored; the script fails otherwise.
- Delta.Stored.Handle: whether the user may delete, update or create what is saved is one given answer.
- Delta.Save: all commands are allowed and stored; values come with type, data and language; empty values are filtered out of the client's lists before; the "@" of an individual, which is the same on both sides, and the first save of a new individual, which is sent whole, are not part of this model.
- Delta.SavedIsChanged: the server still has what the client started from, apart from the update counter; concurrent saves of other clients, for which the client has no remedy, are not modelled, nor is mergeMutualChanges.
- Queue.Consumer.Pop: a queue that is ready and a consumer that may write; one part of a queue and one consumer; going on to the next part is not modelled, and a message is at least two bytes shorter than 4 GiB.
- Queue.Run: files stay below 2^63 bytes and a part below 2^32 messages.
- Cache.Store.Set: objects are values, so that a key changed through another reference to a cached object, its renaming, and the subscriptions of the update service are not captured.
- Paging.Exec: the ranked matches are a list that does not change between pages; the query itself and errors of the search engine are not part of this model. An answer Stuck stands for the loop that does not advance.
- Inheritance.OntologyModel.GetSpecs: ids of specifications are not empty, and the class tree has no cycle.
- Inheritance.Unique: no id is the name of a member that every object of the script language has.
- Decimals.DecimalToString: the exponent has a negation in 64 bits, and there is room for the zeros.
- Storage engines, message transports, HTTP handlers, access of scripts to the store, user interface, translation of queries for the search engine, and scripts evaluated from stored text.
