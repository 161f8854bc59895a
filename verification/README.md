# Proton Drive bridge: a verified model

The bridge puts a client-side protocol on top of the Proton Drive server. This project models its four linked
components and the two traversals over a small abstract server, and proves what they promise.

| file | what it models |
|---|---|
| `Wrappers.dfy` | options, results, the errors of the bridge, and the faults one server call may meet |
| `Crypto.dfy` | symbolic OpenPGP: key packets, data packets, detached signatures, locked keys (sections 5.1 and 5.13 of RFC 4880) |
| `LinkTree.dfy` | the tree of links, the resolver that uses no cache, the record a move leaves |
| `LinkCache.dfy` | the cache class with its two maps, and recursive eviction |
| `CachedResolver.dfy` | what the memoising resolver finds through any cache, when it returns, and how it relates to the plain one |
| `Drive.dfy` | the client class: memoising resolver, moves, trashing |
| `Blocks.dfy`, `BlockUpload.dfy` | cutting and sealing blocks; the block loop and its batches |
| `UploadWorkers.dfy` | the goroutines of a batch, the shared semaphore, the result channel and the collector, as a transition system |
| `Revisions.dfy`, `DraftProtocol.dfy` | one folder's drafts and revisions; the client's protocol of draft, conflict and retry |
| `FileUpload.dfy` | whole uploads: draft, blocks and commit; sequences of uploads |
| `Download.dfy`, `RoundTrip.dfy` | the download reader, both seeks, and upload followed by download |
| `Traversal.dfy` | recursive listing and recursive search |
| `Examples.dfy` | one concrete input for each place where the code does not do what one might expect |

How the parts are stated:

- **Crypto** is symbolic. A message opens for whoever holds a recipient key; a data packet opens under the session key
  it was made with; a signature names its signer and its payload; hashes do not collide. `link.GetKeyRing` of the
  client library is given the meaning of `getKeyRing` in `crypto.go`; its readers of names and hash keys decrypt and
  then check the signature inside.
- **Trees** are maps from ID to record. Termination of the plain resolver needs an acyclic tree, a precondition;
  `LinkTree.MoveKeepsAcyclic` shows that moving outside one's own subtree is exactly what keeps it. The code does not
  check the destination of a move, and neither do the contracts: they say when the tree stays one.
- **The memoising resolver** is modelled for every cache, up to date or not, and need not return: the recursion of the
  code can run in a circle. Its methods take a bound on the depth of the recursion and answer `Running` if it is reached.
  A statement about the code is one about every bound, or about all that are large enough; `CachedResolver.Answer` is
  what the recursion returns, if it does. Every link has an ID.
- **Faults.** An update of the server goes through, is lost or refused, or takes effect while its caller is told that it
  failed.
  In the draft protocol every call meets a fault chosen by an arbitrary function, reporting an arbitrary error, so its
  theorems speak of runs that stop or fail at any call.
- **The server** keeps the rules the repository's comments and tests state: a name is held by at most one draft or
  active link, and free otherwise; a file has at most one draft; deleting the only draft of a never-committed link
  fails; a commit makes the old active revision obsolete; trashing changes the state of the named link only; blocks are
  listed by index; and a listing of children, where a result depends on it, lists each child once.
- **Sizes.** UPLOAD_BLOCK_SIZE, UPLOAD_BATCH_BLOCK_SIZE and DOWNLOAD_BATCH_BLOCK_SIZE are parameters, any number from 1.
- **A nil list of children** is identified with an empty one, which decides whether a folder's keyring is opened in a
  listing.

## Main results

- *Moving keeps keyrings.* After a move no node of the tree resolves differently, so a cache that drops just the moved
  link stays coherent, whatever becomes of the request; and each field of the moved record is as asked for
  (`LinkTree.MoveKeepsKeyRings`, `Drive.Drive.MoveLink`).
- *The cached resolver refines the plain one*, results and errors, through every coherent cache
  (`Drive.Drive.GetLinkKRByID`). Through any cache it answers as the recursion over the cached records, with the server's
  below them, and its own memoising changes no answer (`CachedResolver.AdvancedAnswer`).
- *Eviction has a closed form.* For every cache in which each entry is listed under its own parent, which every sequence
  of operations keeps, a recursive removal takes what the index rows lead to from the named ID, and the two maps
  afterwards are given exactly. Nothing whose chain of cached parents leads to the ID survives. If the index is exact,
  which sequential use keeps, nothing else goes. Neither fatal branch is reachable (`LinkCache.Cache.Remove`).
- *A commit holds what was read.* A revision is committed only after the stream ended and every block that its manifest
  lists was stored; manifest, sizes and blocks are those of the content, sealed with the keys that the committed record
  opens to, and they stay so over any later uploads (`FileUpload.UploadFile`, `FileUpload.UploadAll`).
- *Round trip.* Upload in blocks of any size and batches of any length; then look up the active revision, open its
  record for the keys, and read from any offset with any read pattern: that gives the content back. The seek through
  recorded sizes fetches one batch at most (`RoundTrip.UploadThenDownload`).
- *Workers.* At most K uploads, permits conserved, no send blocks, every run ends, nothing gets stuck, and success means
  that every block is stored (`UploadWorkers`).
- *Drafts and revisions.* On every run, failing anywhere, the committed revisions stay as they were but for the one
  commit the server made; only never-committed drafts are deleted; commits and drafts add up over any sequence of
  uploads (`FileUpload.UploadAll`).
- *Traversals.* Listing and search, which prune and thread keyrings downwards, equal one linear pass over the visible
  part of a full pre-order enumeration, with the keyrings of the bottom-up resolver, errors included. What is visible,
  in which order, and what ends the pass are given in terms of the tree alone (`Traversal.ListingIsVisiblePaths`,
  `Traversal.SearchFindsFirst`).

Where the code does not do what one might expect, the exact condition is proved, and `Examples.dfy` shows a
concrete input:

- The cache holds what the server holds after a trash request unless the answer was lost while the link was cached and
  not yet trashed: eviction follows the server's answer there, while a move evicts first (`Drive.Drive.MoveToTrash`,
  `Examples.TrashAnswerLost`).
- `getLinkKR` inserts the link its caller holds without asking the server. The cache is coherent afterwards exactly if
  the link was cached already or is the current record (`Drive.Drive.GetLinkKR`, `Examples.OldRecordInserted`).
- `getLinkKR` may never return, where the plain `_getLinkKR` answers. For a link that a coherent cache does not hold it
  returns exactly if climbing by the server's parents, from the parent that the link names, does not come back to the
  link before it meets a memoised keyring; with nothing memoised, exactly if the link lies outside its own subtree
  (`CachedResolver.UncachedAnswer`, `CachedResolver.MissesOutside`, `Examples.RecordAboveItsParent`). For any cache
  whatever, it returns exactly if it does within one level more than there are IDs (`CachedResolver.EndsSoonOrNever`).
- A lookup of the moved link between its eviction and the server's change puts the old record back. After a move between
  current records that leaves the tree a tree, the cache is coherent exactly if there was no such lookup or the server
  did not change (`Drive.Drive.MoveLink`, `Examples.LookedUpWhileMoved`).
- Trashing a folder clears its whole cached subtree exactly if every cached link strictly below it has its parent cached
  (`Drive.EvictionClearsSubtree`, `Examples.GrandchildStaysCached`).
- Interleaved lookups that miss may index one ID under two parents; the index is then exact only if the two parents are
  the same, and a removal of the former parent takes the entry too (`LinkCache.InsertExact`, `LinkCache.Cache.Remove`,
  `Examples.EvictedWithFormerParent`).
- A move signs the new name with the account's default address while the link goes on naming the address that signed the
  old name. The name reads afterwards exactly if that address, or the one that signed the node, holds the signing key
  (`LinkTree.MoveRenames`, `Examples.RenamedUnreadable`).
- A stream that breaks off with an unexpected end of file is uploaded as if it were complete; any error but this one and
  the end of file itself fails the upload (`BlockUpload.UploadAndCollectBlockData`, `Examples.TruncatedStreamAccepted`).
- With the replacement of drafts switched off, a draft link is still deleted when listing its revisions reports code
  2501 (`DraftProtocol.HandleRevisionConflict` gives the condition for the deletion as an equivalence,
  `Examples.DraftDeletedUnasked` an input).
- `createFileUploadDraft` drops the second "recreate" flag. Its handle fits a draft exactly if it did not come to a
  second request for the file that took effect while it was reported as a conflict; otherwise the handle names a link
  that is gone (`DraftProtocol.CreateFileUploadDraft`, `Examples.HandleWithoutDraft`).
- A collector may return while a permit is still held (`UploadWorkers.PermitsMayLinger`).

## Model

| member | source | states |
|---|---|---|
| Crypto.ReencryptKeepsKeyRing | crypto.go:76-95 | the packet swap succeeds iff the message parses, the source ring opens it and the destination ring is not empty; then the destination ring gets the same node keyring or error as the source ring did, for every key, signature and verifier, and only its holders can open the packet |
| Crypto.GenerateNodeKeysRoundTrip | crypto.go:62-74 | generated node keys open under `getKeyRing` exactly for rings that share a key with the parent ring and verifiers that know the signer |
| Crypto.KeyRingOpensIff | crypto.go:97-128 | a node opens iff its passphrase opens for one of the keys at hand and unlocks the node key, and any key of the verifying ring has signed exactly this passphrase |
| LinkTree.ResolveThroughParent | cache.go:141-193 | the two plain resolvers agree: a link's keyring is opened with the one resolved for its parent's ID |
| LinkTree.AddressKeysHold | drive.go:186-208 | a key is in the ring of some addresses iff one of them is known and holds it |
| LinkTree.NodeResolvesIff | cache.go:157-193 | a node resolves iff its parent does, the passphrase opens for the parent and unlocks the node key, and any key of the address that signed the node has signed it; the missing keyring is reported iff the parent resolved and that address has no keys |
| LinkTree.GeneratedNodeResolves | folder.go:144-199 | a node made by the client opens to its own key iff its parent resolves to a ring sharing a key with the one it was made for and the address it names holds the key that signed it |
| LinkTree.NameReadsIff | folder_recursive.go:34-41 | a name reads iff it opens for the parent and was signed by a key of either address the link names |
| LinkTree.HashKeyReadsIff | folder.go:277-284 | a hash key reads iff it opens for its folder and was signed by the folder's own key or a key of its address |
| LinkTree.MoveRequestIff | folder.go:255-299 | exactly when a move can be asked for, and every field of the request: parent, original hash, name encrypted for the destination and signed by the account, the name's hash under the destination's hash key, the address kept for the name or else the account's, the swapped packet |
| LinkTree.PlannedMoveIff | folder.go:201-253 | from two IDs: exactly when the move gets to the server, both links being active, and every field of the record it leaves there |
| LinkTree.MoveKeepsAcyclic | folder.go:255-314 | a move leaves the tree acyclic iff the destination is outside the moved subtree |
| LinkTree.MoveKeepsKeyRing | folder.go:290-298 | one node resolves alike before and after a move |
| LinkTree.MoveKeepsKeyRings | folder.go:255-314 | no ID of the tree resolves differently after a move |
| LinkTree.PlainMoveReencrypts | folder.go:255-298 | a completed request carries the passphrase re-encrypted from the old parent's keyring to the new parent's |
| LinkTree.MoveRenames | folder.go:257-288 | after a move every other name reads as before; the moved link reads as the new name iff the address it names for its name, or the one that signed its node, holds the signing key, and otherwise reports a missing keyring or a bad signature |
| LinkCache.RowReachingOneMore | cache.go:119-121 | for any index: evicting what one more child leads to, from the maps that earlier children left, removes exactly what the rows lead to from any of them |
| LinkCache.RowSubtreeThroughChildren | cache.go:94-127 | for any valid index: removing an entry, then all that its row leads to, then its row, leaves exactly the two maps of removing its row subtree at once |
| LinkCache.RowsCoverChains | cache.go:117-121 | what the rows lead to contains everything whose chain of cached parents leads there, and nothing else if the index is exact |
| LinkCache.RemovedIndexed | cache.go:103-126 | removing all that some roots lead to leaves each remaining entry listed under its own parent, and an exact index exact |
| LinkCache.InsertExact | cache.go:71-85 | an insertion keeps the index exact iff the ID was not cached under another parent |
| LinkCache.Cache.constructor | cache.go:25-31 | a new cache is empty and its index exact |
| LinkCache.Cache.Get | cache.go:49-61 | the entry, or nothing when absent or when caching is off |
| LinkCache.Cache.Insert | cache.go:63-90 | both maps afterwards, and when the index is still exact |
| LinkCache.Cache.SetKeyRing | cache.go:247 | only the keyring of the one entry changes |
| LinkCache.Cache.Unlink | cache.go:94-113 | one entry leaves `data` and the row of its parent, nothing else changes; the two fatal branches are unreachable |
| LinkCache.Cache.RemoveNoLock | cache.go:94-127 | both maps afterwards for every valid index: the entry alone, or all that the rows lead to from it; a no-op for an absent ID; ends even on cyclic rows |
| LinkCache.Cache.RemoveChildren | cache.go:117-126 | the descending branch removes all that the row leads to and drops the row: both maps afterwards, every entry left still indexed |
| LinkCache.Cache.RemoveAll | cache.go:119-121 | the loop over the row removes exactly what the rows lead to from its IDs: both maps afterwards |
| LinkCache.Cache.Remove | cache.go:129-138 | the same behind the caching switch; nothing whose chain of cached parents leads to the named ID survives, and with an exact index nothing else goes |
| LinkCache.Cache.Clear | cache.go:294-309 | both maps are emptied, unless caching is off |
| LinkCache.Cache.Run | cache.go:63-138 | over every sequence of atomic operations each entry stays indexed under its own parent, and the index stays exact if insertions only follow misses |
| CachedResolver.AdvancedAnswer | cache.go:228-249 | what a run of the resolver fetches and memoises changes no answer of the recursion, for any cache |
| CachedResolver.EndsSoonOrNever | cache.go:218-279 | for any cache the recursion returns iff it does within one level more than there are IDs cached or on the server |
| CachedResolver.CoherentAnswer | cache.go:218-279 | through a coherent cache the recursion returns what the plain resolver does |
| CachedResolver.NeverReturns | cache.go:251-254 | an uncached link that the climb from its parent comes back to returns within no number of levels |
| CachedResolver.UncachedAnswer | cache.go:251-254 | for any uncached link, current or not: the recursion returns iff the climb from its parent does not come back to it, and then the node opens as given under the keyring the plain resolver finds for that parent |
| CachedResolver.MissesOutside | cache.go:234-254 | with nothing memoised the condition is that the link is neither the parent it names nor above it |
| CachedResolver.CurrentReturns | cache.go:251-254 | for the server's own records it always returns, with the plain resolver's result |
| Drive.MoveKeepsCoherent | folder.go:301-309 | with the moved link evicted the cache is coherent with the moved tree; with it kept it would not be, unless the move changed nothing |
| Drive.MoveSettles | folder.go:301-309 | under each fault: the tree stays one iff the request did not take effect or the destination lies outside the moved subtree; then no keyring changes, and the cache is coherent iff it does not hold the moved link or nothing changed |
| Drive.PlanAsks | folder.go:255-299 | whatever the two resolutions come to, a plan that came about asks for the fields of `LinkTree.MoveRequestIff` |
| Drive.TrashKeepsCoherent | delete.go:9-20 | trashing changes no keyring, and a cache stays coherent iff it holds no link whose state changed |
| Drive.EvictionClearsSubtree | delete.go:15-17 | recursive eviction clears the server's subtree from the cache iff every cached link strictly below has its parent cached |
| Drive.TrashableIff | delete.go:26-58 | exactly which links may be trashed by ID as a file or a folder, an empty folder being one that no active link names as parent, and the error otherwise |
| Drive.Server.MoveLink | folder.go:306-309 | the server's record after a move request under each fault |
| Drive.Server.TrashChildren | delete.go:10-13 | the server's records after a trash request under each fault |
| Drive.Drive.GetLink | cache.go:195-216 | the cached link if there is one, else the server's, which is then cached without a keyring |
| Drive.Drive.OpenCached | cache.go:228-249 | for a cached ID, whatever the cache holds: the recursion's result under any bound, memoised on success |
| Drive.Drive.GetLinkKR | cache.go:218-255 | for any link and any cache: the recursion's result from the cache with the link inserted, under any bound; through a coherent cache what is opened in terms of the plain resolver, when it returns, and that the cache stays coherent iff the link was cached or is the server's record |
| Drive.Drive.GetLinkKRByID | cache.go:257-279 | for any cache the recursion's result under any bound; from a coherent one the plain resolver's keyring or error, within the depth of the node |
| Drive.Drive.RemoveLinkIDFromCache | cache.go:281-292 | eviction keeps coherence |
| Drive.Drive.ClearCache | cache.go:294-309 | clearing keeps coherence |
| Drive.Drive.PrepareMove | folder.go:255-299 | for any two records and any cache: the request, or the first error, from what resolving the two keyrings comes to, and each field of the request; it returns if they resolve within the bound |
| Drive.Drive.MoveLink | folder.go:255-314 | for any two records and any cache: outcome, server and entries after a move under each fault; after a success each field of the moved record, its hash under the destination's hash key included, all other records untouched; for current records and a coherent cache: when the tree stays one, then no keyring changes, and the cache is coherent iff nobody looked the moved link up in the meantime or the server did not change |
| Drive.Drive.MoveByID | folder.go:201-253 | the same from two IDs, with the state checks: a success means that both were active; it returns within the depth of the two nodes |
| Drive.Drive.MoveToTrash | delete.go:9-20 | server and cache after trashing; coherent iff the answer was not lost or no cached link changed state |
| Drive.Drive.Refetch | delete.go:39-41 | dropping an entry without its children and fetching it again leaves the index exact and the entries below in place |
| Drive.Drive.MoveFileToTrashByID | delete.go:22-35 | outcome: a file is trashed as the fault has it, a folder is refused and nothing changes; the eviction starts from the entry just fetched and takes its cached-connected subtree |
| Drive.Drive.MoveFolderToTrashByID | delete.go:37-61 | the same for folders: a file, a failed listing, or with `onlyOnEmpty` an active child refuses it, and nothing changes; otherwise it is trashed as the fault has it |
| Blocks.SplitJoins | file_upload.go:496-520 | the pieces concatenate to the content |
| Blocks.SplitShape | file_upload.go:496-520 | their number is the length over the block size, rounded up; all are full but the last, none is empty |
| Blocks.BlockOpensIff | crypto.go:130-168 | a block opens iff its data is under the session key, its signature opens for the node keyring and is one of the verifier's over exactly its plaintext, and its hash is that of the data; what the buffer gets in each case |
| Blocks.SealedIsGood | crypto.go:130-168 | a sealed block opens iff it could be sealed and the verifier knows the signer |
| BlockUpload.Source.ReadFull | file_upload.go:504-520 | what `io.ReadFull` gives: a full piece, a short one, the end, or the reader's own error passed through, an unexpected end of file included |
| BlockUpload.RevisionStore.UploadPendingBlocks | file_upload.go:438-491 | no request for an empty batch; success iff the request was answered in full and no upload failed, and then the batch is stored |
| BlockUpload.FlushDue | file_upload.go:497-502 | the test on the block counter asks for a flush iff the pending batch is full |
| BlockUpload.TakeBlock | file_upload.go:520-567 | one turn of the loop extends the pieces, the totals and the pending batch in step |
| BlockUpload.Flush | file_upload.go:497-502 | a flush keeps to the due batches, and fails only if one of them met with an event |
| BlockUpload.UploadAndCollectBlockData | file_upload.go:415-577 | succeeds iff the revision is verified, the blocks can be sealed, the stream ends with either end-of-file error and no batch meets with an event; then manifest, sizes, total and hashed content are those of the content, the requests are the due batches and all blocks are stored; otherwise only a beginning of what was due went out |
| BlockUpload.RequestsCoverBlocksOnce | file_upload.go:438-447 | the requests list every block's own data once, in order, numbered from 1, in full batches but the last, with the manifest's hashes |
| UploadWorkers.CollectUploadErrors | file_upload.go:94-105 | drains all results, returns the first error by position, cancels once if there is one |
| UploadWorkers.InvStep | file_upload.go:464-488 | every event of workers, semaphore, channel and collector keeps permits conserved and every result accounted for |
| UploadWorkers.RunKeepsInv | file_upload.go:464-488 | so does every run |
| UploadWorkers.AtMostCapacityUploads | file_upload.go:468-479 | at most K blocks are uploading, over all batches |
| UploadWorkers.NoSendBlocks | file_upload.go:467-482 | the channel has room whenever a worker may still send |
| UploadWorkers.ReturnedBatch | file_upload.go:484-490 | after the collector returned no worker waits or uploads; it reports no error iff every result is one, and then every block is stored |
| UploadWorkers.EveryFateIsPossible | file_upload.go:464-490 | every batch outcome of a run is one the block loop allows for |
| UploadWorkers.NoErrorWithoutCause | file_upload.go:464-490 | a batch of which no upload fails and that nobody cancels reports no error, in any run |
| UploadWorkers.PermitsMayLinger | file_upload.go:474-478 | a run in which the collector has returned and a permit is still held |
| UploadWorkers.BatchMeasureFalls | file_upload.go:464-488 | every event but a start brings its batch nearer to its end |
| UploadWorkers.RunsEnd | file_upload.go:464-488 | a run is bounded by what it starts with and the batches it starts |
| UploadWorkers.NeverStuck | file_upload.go:464-488 | with at least one permit some event is possible until all is done |
| UploadWorkers.QuietFreesPermits | file_upload.go:474 | once all is done every permit is back |
| Download.FileDownloadReader.Decrypted | crypto.go:130-168 | buffer and error of opening one block; a hash mismatch shows only after its bytes are buffered |
| Download.FileDownloadReader.FetchBlock | file_download.go:65-80 | one block moves to the buffer iff the fetch goes through and the block opens; an error leaves what is due at the front |
| Download.FileDownloadReader.PopulateBufferOnRead | file_download.go:56-84 | bytes only move from blocks to buffer; a failed fetch loses nothing; after a bad block the buffer still starts with what was due; a batch is fetched, or what is left, up to the first fetch or block that fails |
| Download.FileDownloadReader.Read | file_download.go:29-48 | delivers the next bytes, at least one for a non-empty buffer; end of file iff nothing remains, given that no block is empty; the server is asked only when the buffer is empty |
| Download.ReadAll | file_download.go:29-48 | reading to the end with any buffers gives exactly what remained, or up to the first error a beginning of it |
| Download.CopyN | file_download.go:160 | skips exactly n bytes; fails iff fewer remain; a negative n skips nothing without an error |
| Download.LocateBlock | file_download.go:148-157 | the first block whose recorded end reaches the offset, and the rest to skip in it; the start if there is none |
| Download.SkipIsOffset | file_download.go:148-160 | skipping the rest from the located block comes to skipping the offset from the start, for every offset |
| Download.Skip | file_download.go:160-166 | succeeds iff that many bytes remain and the count is not negative |
| Download.DownloadFile | file_download.go:141-180 | with or without recorded sizes: succeeds iff the offset lies within the content, and leaves the content from there; with the sizes at most one batch is fetched |
| RoundTrip.ListingIsUnique | file_download.go:63-65 | the stored blocks have one listing by index |
| RoundTrip.JobOpens | file_upload.go:493-568 | the blocks of an upload open to its content and its recorded sizes fit them |
| RoundTrip.ListBlocks | file.go:107 | listing a set of blocks with distinct indices by index |
| RoundTrip.RecordOpens | file_download.go:103-125 | the keys that a committed record opens to, its listed blocks and its recorded sizes fit together, and the blocks open to the content |
| RoundTrip.DownloadRecord | file_download.go:98-181 | reading a committed record from any offset gives the content from there, or the error of an offset outside |
| RoundTrip.UploadThenDownload | file_download.go:127-180 | an upload that succeeded, under any faults, then the active revision, its record's keys and sizes, and a read from any offset: the content from there |
| Revisions.RevisionCounts | file.go:26-32 | a listing shows the commits plus the draft: at most one draft, one active revision iff ever committed, the rest obsolete; draft state iff never committed |
| Revisions.DeleteRevisionInv | file_upload.go:221-225 | deleting a draft keeps the folder sound and leaves no draft |
| Revisions.CreateRevisionInv | file_upload.go:233-239 | a new revision is the only draft |
| Revisions.CommitRevisionInv | file_upload.go:599-602 | a commit makes the revision the only active one and leaves no draft |
| Revisions.EffectCommit | file_upload.go:579-605 | a commit retires the old active revision and touches nothing else |
| Revisions.ActiveRevisionKept | file_upload.go:611-662 | an active revision stays active unless the upload committed another on its link, which makes it obsolete |
| Revisions.OnlyDraftsDeleted | file_upload.go:183-246 | a link an upload deletes has its name, was never committed and has no revision but drafts |
| Revisions.RecordKept | file_upload.go:611-662 | an upload leaves every committed revision with the record and key material it had, and adds the record that its own commit carried |
| DraftProtocol.GetRevisions | file.go:19-35 | the revisions of one state, as listed now |
| DraftProtocol.GetActiveRevision | file.go:98-105 | the one active revision; found for every link that was ever committed |
| DraftProtocol.Connection.SearchByName | search.go:77-108 | the hash check, then the scan: a link of the name in the wanted state; nothing iff the name is free or no link of it is in that state; one call or two |
| DraftProtocol.RecoverBrokenConflictState | file_upload.go:170-181 | deletes the link iff the error is code 2501 and the link is a draft; recreates iff the deletion was acknowledged |
| DraftProtocol.RenewDraft | file_upload.go:220-239 | the draft there was is deleted, the revision made is new and the only draft; it stops at the first call that fails, with its error |
| DraftProtocol.FindHolder | file_upload.go:337-356 | the link that holds the name, active or draft, only with every call going through; if they do, exactly when the name is held; number of calls |
| DraftProtocol.HandleRevisionConflict | file_upload.go:183-246 | yields the link's only draft, one that was not there before, or a freed name, or an error; unless it cleans up a link that cannot be read, it stops at the first call that fails, with that error; the exact condition for deleting the link, and the folder then; if its calls go through, draft-exists iff there is a draft and replacing is off; a draft link is always freed or an error; number of calls |
| DraftProtocol.CreateFileAction | file_upload.go:326-360 | a new link with its only draft, or the link that holds the name, other links untouched; a link is looked for only after a conflict, and only with all further calls going through; a link found for a free name is the draft just made by a request reported as a conflict; number of calls |
| DraftProtocol.NewKeysOpen | file_upload.go:258-324 | the keyring and session key kept by the uploader are those read back from the record, by exactly the readers who share a key with the parent's ring and know the signer |
| DraftProtocol.AttemptDraft | file_upload.go:362-385 | one request and what follows a conflict: a fitting new draft or a freed name; when it asks for another attempt |
| DraftProtocol.CreateFileUploadDraft | file_upload.go:248-413 | on success the handle's revision is the only draft of its link and its keys are the record's, iff no second request took effect while it was reported as a conflict; no link had this revision before; at most two requests; without faults it fails iff there is a draft and replacing is off |
| FileUpload.CommitNewRevision | file_upload.go:579-605 | the commit carries the collected data and takes effect iff it reached the server: the link afterwards; it reports success iff its call went through |
| FileUpload.GetRevisionVerification | file_upload.go:427-430 | passes iff the call goes through and the server has the revision |
| FileUpload.CommitsAddUp | file_upload.go:611-662 | an upload adds one commit to its own name if it committed, and none to any other |
| FileUpload.UploadBlocks | file_upload.go:415-434 | the block phase with the handle's keys: on success the revision is known and what is stored and collected is the record of the content |
| FileUpload.FinishUpload | file_upload.go:631-661 | what follows the draft: blocks, then the commit of exactly their record, or a stop with the draft in place |
| FileUpload.UploadFile | file_upload.go:611-662 | whatever fails, only the allowed effect on the folder; a commit is of a revision that no link had before, and implies that the stream ended, all blocks of the manifest are stored and the record is the content's under the keys the link opens to; the commit's own call is the last, and the commit is reported iff it went through, its answer included; drafts left by a success, with the exact exception; without faults, exactly when it succeeds |
| FileUpload.DraftsOfOthers | file_upload.go:611-662 | an upload leaves the drafts of every other name as they were |
| FileUpload.AllRecordsPresentOne | file_upload.go:611-662 | one more upload leaves every revision committed before recorded with its own content |
| FileUpload.UploadAll | drive_test.go:177-215 | over any sequence of uploads every link stays sound, commits and drafts of every name are what its uploads make them, every revision committed on the way is still recorded with what its upload read, and each commit is reported iff the last call of its upload, the commit's own, went through |
| Traversal.HiddenBelow | folder_recursive.go:26-28 | what pruning skips holds nothing visible |
| Traversal.ListDirectoriesRecursively | folder_recursive.go:13-115 | appends, and fails with, what the linear pass over the visible nodes gives |
| Traversal.ListChildren | folder_recursive.go:104-109 | the same for the loop over the children |
| Traversal.EnumeratesSubtree | folder_recursive.go:99-109 | from a complete listing the enumeration holds exactly the chains from the start to the nodes of its subtree |
| Traversal.PreOrderOrdered | folder_recursive.go:104-109 | whatever is enumerated earlier lies above what comes later, or below an earlier listed sibling of a link above it |
| Traversal.NeverBothBefore | folder_recursive.go:104-109 | that is an order: if no row repeats an ID, no two chains come before each other |
| Traversal.PreOrderDistinct | folder_recursive.go:99-109 | if no row repeats an ID, no chain is enumerated twice |
| Traversal.VisibleIff | search_recursive.go:68-74 | the filters let a node through iff every link from the start down to it is active, or a draft where drafts count, every link above it is a folder, and it lies within the depth bound |
| Traversal.ListingIsVisiblePaths | folder_recursive.go:22-112 | the listing goes through exactly those nodes, in pre-order and each once; it ends without an error, with exactly their paths, iff every name reads and every folder with children above the depth bound opens; otherwise it ends at the first node where this fails, with its error and the paths up to there |
| Traversal.RootIncluded | drive_test_helper.go:317-360 | listing with the root is the root's path followed by the listing without it, each path prefixed |
| Traversal.SearchIsScan | search_recursive.go:61-119 | the search equals the linear pass over the visible nodes, errors included |
| Traversal.SearchFindsFirst | search_recursive.go:43-119 | the first node in pre-order, among those the filters let through, that the search cannot pass over decides: it is returned if it has the name and kind sought, and stops the search with its error otherwise; nothing is returned iff all are passed over; the checks before the search begins |
| Examples.TrashAnswerLost | delete.go:10-17 | a file is trashed on the server, the answer is lost, and the cache still shows it as active |
| Examples.OldRecordInserted | cache.go:251-254 | a record out of date is inserted and answers later lookups |
| Examples.RecordAboveItsParent | cache.go:234-254 | a held record whose keyring the plain resolver finds and the memoising one returns under no bound |
| Examples.LookedUpWhileMoved | folder.go:301-306 | the record from before a move is cached again and answers later lookups |
| Examples.GrandchildStaysCached | delete.go:37-61 | a cached link two levels down stays cached after its folder was trashed, its parent not being cached |
| Examples.EvictedWithFormerParent | cache.go:71-85 | an entry is evicted with the parent it was once indexed under |
| Examples.RenamedUnreadable | folder.go:261-275 | a name that was readable is not after a move by another account |
| Examples.TruncatedStreamAccepted | file_upload.go:507-516 | a stream cut short with an unexpected end of file is uploaded as complete |
| Examples.DraftDeletedUnasked | file_upload.go:187-195 | a draft link is deleted with replacing off |
| Examples.HandleWithoutDraft | file_upload.go:381-385 | a handle without a revision, for a link that is gone |

## Left out

- Download.DownloadFile: covers the seek and what is read after it, for blocks that open and are not empty; keys and revision are resolved in `RoundTrip.DownloadRecord`. A missing block is a failed fetch. A revision without extended attributes is not covered: the code dereferences nil there before it comes to the seek.
- Drive.Server.MoveLink: an abstract server; why it refuses a request (the original hash, a name in use) is not modelled, only that it may, with any error.
- Drive.Server.TrashChildren: an abstract server; a parent ID that does not fit the links is one more reason to refuse.
- DraftProtocol.Connection.SearchByName: starts at the hash check; the checks of the folder's type and state and the opening of its keys, which depend on the folder alone, are not modelled, and a name stands for its hash.
- Traversal.ListDirectoriesRecursively: covers the listing; the downloads to disk that the same function makes on request are not modelled, nor is a nil list of paths.
- Cache entries are values in the map: a keyring written into an entry that another goroutine has evicted is not modelled; `Run` treats it as a write to an absent ID.
- Failures of reads while resolving keyrings: the tree is fixed during a resolution, so a transient network error is not modelled there.
- Drive.Drive.MoveByID: for coherent caches; from others it is `Drive.Drive.MoveLink` on what the cache answers for the two IDs.
- The signature over the manifest, the encryption of the extended attributes and the modification time of a commit: a record holds what was signed and encrypted, and only that signing needs an address key is modelled.
- The size field and verification token of a block request, and the digests' encodings: they do not affect what is stored.
- Errors in setting the name and its hash on a create request; the name itself stands for its hash.
- Other clients acting on the same name while an upload runs, beyond errors that the faults report.
- HTTP, retries, login, configuration, shares, volumes, mail, reflection helpers, date and MIME handling: plumbing.
- `EmptyRootFolder`, `EmptyTrash`, `ListDirectory`, `CreateNewFolder`: single passes over what is modelled.
