# Code signing, verified

A Dafny model of the parts of this code-signing implementation that are hard to get right by
reading, and proofs of what they promise. Hashing, signature schemes, certificate parsing, property
list encoding and single filesystem operations are parameters; everything that decides, orders,
counts, bounds or combines is modelled as the Go code does it.

- **Signing a bundle tree.** `SigningPlan` plans a tree of nested bundles children first and seals
  every nested object into its parent's envelope; `BundleWriter` stages all executables, spreads
  denied allocations upward, and commits in order. `PlanLaws`, `CommitLaws` and `BundleSigning`
  connect the two: wherever a run stops, a bundle whose executable was replaced is fully signed on
  disk, down to the last seal. `PlanMeaning` says which plan every tree has, `ApplyLaws` what carrying
  it out does, both from the inputs alone. `ScannedBundle` builds that tree from a scan, with names as `Spelling`
  spells them, and proves everything the planner takes for granted of it.
- **Certificate paths.** `CertificatePath` is the backtracking search with its visit budget, proved
  sound, bounded, and to find the first chain in the order of supply exactly when it is in reach.
  `CertificateIssuers` shows that sole issuers keep every chain in reach. `LinkedChain` is the greedy
  linker, proved independent of the order of the supplied SET and to return exactly the finished chain.
- **The signature container.** `SignatureContainer` reads SuperBlobs and CodeDirectories, and accepts
  exactly the byte strings a reader may rely on; `DirectoryLayout` lays the fields of a directory out
  one after the other. `SuperblobWriter` writes them; writing and reading
  are inverse.
- **Sealing resources.** `ScanScope`, `TreeScan`, `ScanLaws`, `ScanSafety` and `TreeWalk` are the scan
  of a bundle tree, versioned frameworks and their other versions included: its verdict and its seals do
  not depend on the order directories are listed in (`Listing`), nothing escapes sealing but by an
  explicit rule, and no later write reaches another sealed file or another version. `ScanEnvelope` and
  `OwnSeals` say exactly which seals are a bundle's own, and `TwoScans` compares two scans in different
  modes. `Places`, `PlaceSeals` and `Acceptance` say by paths alone what every entry is, how it is
  sealed, and which trees are accepted. `ResourcePolicy` and `LinkContainment` are the weighted rules and the lexical test on links.
- **Verifying resources.** `ResourceVerification` verifies an envelope against a scan. `EnvelopeLaws`
  proves that a verified envelope binds the tree, and `SignThenVerify` that what was signed verifies,
  after signing has written whatever it may write.
- **Metadata.** `SignatureAttributes` removes attached signatures, `MetadataPolicy` inspects
  prohibited attributes directly or from an observation, `MetadataStrip` removes them.
- **CMS.** `Der`, `SignedAttributes` and `AttributeBinding` build, order, sign, store and read back the
  signed attributes; `DirectoryBinding` compares the streamed binding of code directories with the one
  computed in memory.

`ByteStrings` (with `Sorting` and `Text`), `Wrappers` and `Host` hold what several of these share.
The scan, the planner, the search and the removals are methods over mutable state, proved against
specification functions; the laws are lemmas about those functions.

## Where the code does not do what it is said to do

- An observation is meant to keep every error for later (`internal/sideband/observation.go:28-44`).
  The error of a failing close is joined to the captured query errors, which spoils the replay in two
  ways. Where hosts forgive a permission error to a presence query, the failing close is forgiven as
  well: the replay answers, even "nothing found" for an attribute that is there, where a direct
  inspection fails. `MetadataPolicy.ReplayAgrees` says exactly when replay and inspection part on
  success, `MetadataPolicy.ForgottenFork` is a case. Where both fail, the replay may stop at an earlier
  query than the inspection and lose the error that the inspection reports.
  `MetadataPolicy.SameReport` says exactly when stage and causes are the same,
  `MetadataPolicy.ForgottenFailure` is a case. Without a failing close, replay and inspection are equal
  in all cases, errors included.
- A trusted chain is refused when a common name, organization or organizational unit in it is not a
  string, or a subject does not decode (`pkg/codesign/certificate.go:38-69`, `285-302`), although the path
  search has accepted it and another chain may be free of that. The search settles on one chain: the
  first that passes no root on its way, taking certificates in the order of supply, roots before
  intermediates. A chain is returned exactly when that first chain exists, is in reach of the visit limit and can
  be described (`CertificatePath.VerifyCertificateChainFor`). `CertificateOrder.OrderDecides` supplies the
  same certificates in two orders: one is accepted and one is refused.
- The streamed CMS binding equals the one in memory exactly when a primary directory is present or
  there is no directory at all (`DirectoryBinding.StreamedIsDirect`); `DirectoryBinding.AlternateAlone` is
  an index where they differ. Every container the parser accepts satisfies the condition
  (`DirectoryBinding.AcceptedBindsAlike`).
- The attribute reader is strict about order and duplicates, but skips bytes that follow the values
  inside one attribute, as Go's decoder does (`SignedAttributes.ExtraIsSkipped`), so that one attribute
  has several accepted spellings (`SignedAttributes.SpareByte`). `SignedAttributes.AcceptedExactly`
  includes them.

## Model

| member | source | states |
|---|---|---|
| SigningPlan.CollectNames | pkg/codesign/bundle_nested.go:132-139 | The nested names come out sorted, whatever order the map is enumerated in. |
| SigningPlan.SortedNamesUnique | pkg/codesign/bundle_nested.go:132-139 | Any enumeration of the nested names sorts to one and the same list. |
| SigningPlan.PrepareName | pkg/codesign/bundle_nested.go:146-220 | One turn of the nested loop yields the specified step and changes no other entry of the map. |
| SigningPlan.PrepareNested | pkg/codesign/bundle_nested.go:131-226 | The loop over nested code computes the specified plan, with the map rewritten entry by entry, and stops with nothing planned when the caller cancels. |
| SigningPlan.PlanSignature | pkg/codesign/bundle_tree.go:205-236 | The recursive planner computes the plan that `PlanHolds`, `PlanWithin` and `PlanFits` are about. |
| PlanLaws.StepHolds | pkg/codesign/bundle_nested.go:146-220 | Every turn of the nested loop keeps the plan invariant: children first, distinct targets, true seals. |
| PlanLaws.NestedHolds | pkg/codesign/bundle_nested.go:131-226 | The invariant holds after any number of nested names. |
| PlanLaws.PlanHolds | pkg/codesign/bundle_tree.go:205-236 | For every bundle tree: no target occurs twice, every envelope seals the bytes its nested objects finally hold (or hold already, in a dry run), the write before each executable is its own envelope, and children come first. |
| PlanLaws.PlanWithin | pkg/codesign/bundle_tree.go:205-236 | Every planned write belongs to a bundle of the tree. |
| PlanMeaning.PlanFits | pkg/codesign/bundle_tree.go:205-236 | Which plan a bundle has, for any tree, toolkit and options: signed, failed on metadata or failed as the fates of its nested objects decide, told without an order of planning; and exactly which files it writes, a dry run that fails included. Deep signing renews exactly the nested code that carries no complete signature, and by force all of it. |
| PlanMeaning.PlannedIsRequested | pkg/codesign/bundle_nested.go:162-184 | Every planned write is what signing asks for: an executable signed under its identifier over its property list and its own sealed envelope, by force when nested; a helper signed by force under a name of its own, without either. |
| PlanMeaning.RetainedIsPlanned | pkg/codesign/bundle_nested.go:187-218 | What a failing dry run keeps belongs to the plan it would have made. |
| BundleWriter.StageAll | pkg/codesign/bundle_writer.go:74-104 | Staging computes the failed and blocked sets of the specification, or aborts as it does; `ApplyLaws.StagedExactly` says when. |
| BundleWriter.CommitAll | pkg/codesign/bundle_writer.go:108-133 | The loop leaves the disk as the specified commit does, and stops where it does; `ApplyLaws.CommittedExactly` says how and where. |
| BundleWriter.CloseAll | pkg/codesign/bundle_writer.go:67-73 | Every replacement made ready is closed, and one failing close is enough to report. |
| BundleWriter.ApplyBundleWrites | pkg/codesign/bundle_writer.go:62-135 | The disk ends as the specified commit leaves it; an aborted staging or a dry run changes nothing; denied allocations are reported, and failing closes beside them, on every way out. `ApplyLaws.VerdictExactly` reads all of it off the inputs. |
| CommitLaws.StageHolds | pkg/codesign/bundle_writer.go:74-104 | After staging, failed and blocked mean what they should: a failed bundle has an executable that stays behind, a blocked one has a reason below it. |
| CommitLaws.TaintSpreads | pkg/codesign/bundle_writer.go:79-88 | One executable that stays behind blocks every ancestor in the plan. |
| CommitLaws.BlameFound | pkg/codesign/bundle_writer.go:79-102 | Every blocked bundle has a denied allocation below it or in a helper of its own. |
| CommitLaws.BlockedExactly | pkg/codesign/bundle_writer.go:79-102 | The blocked bundles are exactly those with a failed helper or a failed proper descendant. |
| CommitLaws.CommitsInOrder | pkg/codesign/bundle_writer.go:108-133 | At every point, everything before a completed write has completed or was passed over. |
| CommitLaws.CommitsToDisk | pkg/codesign/bundle_writer.go:108-133 | A completed write stays on disk and files no write names are never touched. |
| CommitLaws.TreeLanded | pkg/codesign/bundle_writer.go:108-134 | When an executable is replaced, every planned write below its bundle has completed before. |
| CommitLaws.NothingDenied | pkg/codesign/bundle_writer.go:74-104 | Without a denied allocation nothing fails and nothing is blocked. |
| ApplyLaws.StagedExactly | pkg/codesign/bundle_writer.go:74-104 | Staging aborts exactly when an allocation breaks that is attempted, that is, not the executable of a bundle with a denial below it; which replacements are ready and which were denied follow from the outcomes alone. |
| ApplyLaws.CommittedExactly | pkg/codesign/bundle_writer.go:108-134 | For every failure and cancellation: when the commit stops, which writes are made, which envelope is torn, and that every other file is as it was. |
| ApplyLaws.VerdictExactly | pkg/codesign/bundle_writer.go:62-135 | The verdict, the replacements to close and the files that are left, read off the plan and the outcomes. |
| ApplyLaws.LandedExactly | pkg/codesign/bundle_writer.go:62-135 | Unless an attempted allocation breaks, and without commit errors, exactly the envelopes and executables of hindered bundles and the denied files stay unwritten; independent siblings and the envelope of a bundle whose only failure is its own executable are written. |
| BundleSigning.ReplacedTreeIsWritten | pkg/codesign/bundle_writer.go:108-134 | At every point of the commit, for any plan and any failure: a replaced executable comes after every planned write of its bundle and its descendants. |
| BundleSigning.NestedOnDisk | pkg/codesign/bundle_writer.go:108-134 | The nested objects of a replaced bundle hold on disk the code their seals were taken of. |
| BundleSigning.HelperOnDisk | pkg/codesign/bundle_writer.go:108-134 | At every point, a helper on disk is the one that was there, or that one signed anew as deep signing asks. |
| BundleSigning.ReplacedIsSigned | pkg/codesign/bundle_writer.go:108-134 | At every point, a bundle whose executable was replaced is fully signed on disk: its own code, signed with its own request over the envelope beside it, which seals what is there. |
| BundleSigning.RunKeepsPromise | pkg/codesign/bundle.go:681-693 | The same for every bundle of the tree whose executable differs from before, and for every helper, after any number of commit steps of any staging. |
| BundleSigning.FinishedIsSigned | pkg/codesign/bundle.go:681-693 | A run without denials or errors leaves the outermost bundle fully signed. |
| BundleSigning.PlanLandsExactly | pkg/codesign/bundle_writer.go:62-135 | For the plan of any tree, unless an attempted allocation breaks: the allocations alone decide which writes are made. |
| BundleSigning.DryRunSealsDisk | pkg/codesign/bundle_nested.go:208-220 | In a dry run every nested seal is that of the bytes on disk. |
| BundleSigning.MainOnDisk | pkg/codesign/bundle_writer.go:108-134 | When an executable is replaced, it and its own envelope are on disk as planned. |
| BundleSigning.SignBundle | pkg/codesign/bundle.go:681-694 | Wherever a run stops, no replaced executable is left half-signed. A run finishes exactly when the bundle's fate is to be signed, the caller still waits, no attempted allocation breaks or is denied, no step fails (unless in a dry run) and all replacements close; every other outcome has its exact condition too. The files are those that the commit of the plan leaves when the plan is carried out, write by write, and otherwise what they were. |
| ScannedBundle.ChildScanned | pkg/codesign/bundle_tree.go:91-158 | A sealed child bundle was itself scanned and accepted, and its effects are among those of the whole scan. |
| ScannedBundle.EntriesAreOwn | pkg/codesign/bundle_nested.go:131-139 | At every level the planner's entries are exactly the seals that the scan leaves to that bundle. |
| ScannedBundle.BuiltIsWellFormed | pkg/codesign/bundle_tree.go:84-89 | The tree a scan hands to the planner has distinct bundles and no file in two roles, with names as the envelope spells them. |
| ScannedBundle.BuiltOnDisk | pkg/codesign/bundle.go:671-681 | Every executable and nested object of it is on disk with the code the scan has read. |
| ScannedBundle.ScanFitsPlanner | pkg/codesign/bundle.go:671-681 | Both, for every scan that signing accepts. |
| Spelling.SpelledOnce | pkg/codesign/bundle.go:65-80 | Different paths are spelled differently. |
| CertificatePath.CertificatePolicyFor | pkg/codesign/certificate.go:133-189 | Accepts exactly the certificates that are in their validity, with permitted usage, purpose and extensions, and as CA within the path length of section 4.2.1.9 of RFC 5280. |
| CertificatePath.PermitsPurpose | pkg/codesign/certificate.go:159-170 | A purpose list permits exactly the purpose asked for, or any. |
| CertificatePath.CasBelowCounts | pkg/codesign/certificate.go:264-269 | The counter passed along is the number of non-self-issued CAs strictly between a certificate and the leaf. |
| CertificatePath.RejectedParent | pkg/codesign/certificate.go:249-272 | Skipping a parent loses no trusted chain. |
| CertificatePath.Exhausted | pkg/codesign/certificate.go:248-279 | If no parent leads to a root, nothing does. |
| CertificatePath.BudgetCall | pkg/codesign/certificate.go:237-240 | Only calls within the visit limit branch out. |
| CertificatePath.PathSearch.TryParent | pkg/codesign/certificate.go:249-278 | One turn of the search loop: a found chain is the first trusted one by way of this parent, a missing one does not exist, and the budget is kept. |
| CertificatePath.PathSearch.Search | pkg/codesign/certificate.go:236-280 | The search extends a path to the first trusted chain in pool order, or shows within the visit limit that there is none; the calls within the limit see the first paths in order, each once. |
| CertificatePath.SearchBudget | pkg/codesign/certificate.go:234-284 | The search ends within 1 + 256 * 64 calls. |
| CertificatePath.FoundInReach | pkg/codesign/certificate.go:236-280 | When a chain is found, at most 256 paths come no later than it. |
| CertificatePath.MissedOutOfReach | pkg/codesign/certificate.go:236-280 | A search that stops at the limit has seen 256 paths that all come before the first chain. |
| CertificatePath.VisitsAtMost | pkg/codesign/certificate.go:234-280 | The search makes at most as many calls as there are paths to explore, told from the inputs. |
| CertificateIssuers.SoleIssuersSuffice | pkg/codesign/certificate.go:234-280 | Where the leaf and every supplied certificate have at most one acceptable issuer besides themselves, there are at most as many paths as certificates, and never more than 33. |
| CertificatePath.BuildPool | pkg/codesign/certificate.go:217-233 | The pool holds each supplied certificate once, in the order of first supply, without the leaf, and fails exactly when one does not parse. |
| CertificatePath.ChainIsTrusted | pkg/codesign/certificate.go:200-284 | Chains over the pool are the trusted chains over the caller's inputs. |
| CertificatePath.DescribeChain | pkg/codesign/certificate.go:288-302 | Fails exactly when a certificate of the chain cannot be described. |
| CertificatePath.VerifyCertificateChainFor | pkg/codesign/certificate.go:200-302 | Sound: a result starts at the leaf, ends at its first root, repeats nothing, every link verifies, names match and every path length holds, and it is the first such chain in the order of supply. Exact: a chain is found if and only if there is one and at most 256 explorable paths come no later than the first; it is returned if and only if that one can be described. With at most 256 paths to explore, a leaf that is no root has a chain found exactly when a trusted one of at most 32 certificates exists. A leaf that is a root itself is judged as an authority, and every other error names what is wrong with the inputs. |
| CertificatePath.FirstByTurn | pkg/codesign/certificate.go:249-278 | Taking parents in pool order, the first one that leads to a root leads to the first chain. |
| CertificatePath.FoundIsFirst | pkg/codesign/certificate.go:223-284 | First in the pool is first in the order the caller supplied. |
| CertificatePath.FirstIsOnly | pkg/codesign/certificate.go:223-284 | There is only one first chain. |
| CertificateOrder.OrderDecides | pkg/codesign/certificate.go:223-302 | Two orders of one set of certificates: with one the chain found is returned, with the other it cannot be described and the leaf is refused, although a good chain exists. |
| LinkedChain.FindParent | pkg/codesign/certificate.go:360-376 | One scan of the set finds the only issuer, none, or fails for a flaw or an ambiguity that is there. |
| LinkedChain.LinkedCertificates | pkg/codesign/certificate.go:346-388 | The linker returns exactly the finished chain of the leaf over the set of certificates, if there is one. |
| LinkedChain.OrderDoesNotMatter | pkg/codesign/certificate.go:343-388 | All orders of the certificates give the same chain, or none does. |
| LinkedChain.ChainShape | pkg/codesign/certificate.go:355-387 | A chain repeats nothing, has at most 32 certificates, takes the only issuer at every step, and stops at a self-issued certificate or one without issuer. |
| LinkedChain.StepExactly | pkg/codesign/certificate.go:355-385 | The chain goes on exactly with the only issuer, when all certificates are readable, it is a fit authority and it is new; it ends exactly at a certificate that issued itself or that nothing signed. |
| LinkedChain.ChainExactly | pkg/codesign/certificate.go:346-388 | When there is a chain, and which: sole issuers all the way without repetition, at most 32, up to one that issued itself or has no issuer. |
| SignatureContainer.CString | pkg/codesign/blob.go:146-155 | A string is the bytes up to the next zero inside the blob, and is refused exactly when there is none. |
| SignatureContainer.DirectoryBounds | pkg/codesign/blob.go:157-230 | The hash table of an accepted directory lies between its version's header and its end. |
| SignatureContainer.HashSlotsInside | pkg/codesign/blob.go:157-230 | So does every single hash slot, special and code slots alike. |
| SignatureContainer.StringsInside | pkg/codesign/blob.go:157-230 | Identifier and team end inside the directory, and the identifier does not overlap the header. |
| SignatureContainer.BoundsDoNotWrap | pkg/codesign/blob.go:157-230 | The products of the bounds tests stay below 2^64. |
| DirectoryLayout.DirectoryReads | pkg/codesign/blob.go:157-230 | A directory laid out as the list of its fields, as many as its version has, is accepted exactly when they fit together, and reads as they say. |
| DirectoryLayout.ParsedExactly | pkg/codesign/blob.go:157-230 | So any bytes are: every header is such a list. |
| SignatureContainer.SumsDoNotWrap | pkg/codesign/blob.go:100-111 | The 32-bit sums of the reader do not wrap where they are used. |
| SignatureContainer.NeighboursDecide | pkg/codesign/blob.go:134-139 | Comparing neighbours of the sorted spans decides disjointness of all pairs. |
| SignatureContainer.CheckOverlap | pkg/codesign/blob.go:134-139 | The overlap test accepts exactly pairwise disjoint spans. |
| SignatureContainer.ReadEntry | pkg/codesign/blob.go:90-133 | An index entry is accepted exactly when its slot is new, its component in range, and its content fit for the slot. |
| SignatureContainer.ParseSignatureRange | pkg/codesign/blob.go:71-144 | Parsing accepts exactly the containers with distinct slots, disjoint components in bounds and a primary directory, and returns those components. |
| SuperblobWriter.WriteSuperblob | pkg/codesign/blob.go:240-258 | The array written in place holds header, index and payload of the blobs in slot order. |
| SuperblobWriter.RoundTrip | pkg/codesign/blob.go:240-258 | Reading a written container, with any padding behind it, returns the same blobs. |
| SuperblobWriter.SortKeepsPackable | pkg/codesign/blob.go:240-242 | Blobs that can be packed can be packed in slot order. |
| SuperblobWriter.PackedReadsBack | pkg/codesign/blob.go:240-258 | Any distinct well-formed blobs with a primary and a total below 2^32 are read back in slot order. |
| SuperblobWriter.BlobBytesWellFormed | pkg/codesign/blob.go:232-238 | A wrapped payload is a well-formed component. |
| ResourcePolicy.ChoiceIsWinner | pkg/codesign/bundle_resources.go:77-91 | The loop picks a rule of greatest weight among those that match. |
| ResourcePolicy.AnyOrder | pkg/codesign/bundle_resources.go:60-91 | Where matching ties agree, every order of the rules gives the same answer. |
| ResourcePolicy.TiesMatter | pkg/codesign/bundle_resources.go:60-91 | Where they do not, two orders give different answers. |
| ResourcePolicy.FixedTiesAgree | pkg/codesign/bundle_resources.go:23-52 | The fixed rules of both versions agree on every tie, for every path. |
| ResourcePolicy.DecidePolicy | pkg/codesign/bundle_resources.go:77-91 | The policy is the same for every order the rules were compiled in. |
| ResourcePolicy.PolicyMeaning | pkg/codesign/bundle_resources.go:23-91 | What version 2 includes and marks optional, said without rules or weights. |
| ResourcePolicy.LegacyMeaning | pkg/codesign/bundle_resources.go:31-91 | The same for version 1: resources and the version file, without what a localization omits. |
| ResourcePolicy.MatchesExactly | pkg/codesign/bundle_resources.go:31-51 | Each pattern matches exactly the paths that its regular expression spells, piece by piece. |
| LinkContainment.CleanFollowsWalk | pkg/codesign/bundle_layout.go:193-196 | Cleaning a path tells exactly whether walking it leaves the base at any step, and where it ends. |
| LinkContainment.CleanTwice | pkg/codesign/bundle_layout.go:193-196 | Cleaning a cleaned path changes nothing. |
| LinkContainment.SplitExactly | pkg/codesign/bundle_layout.go:184-191 | A path splits into the only parts without slashes that join to it. |
| LinkContainment.ResourceLink | pkg/codesign/bundle_layout.go:173-207 | Signing accepts a target exactly when it is relative, of valid parts, resolves, and never leaves the base; verification bounds its length only. |
| ScanScope.BundleScan.EnterPath | pkg/codesign/bundle_tree.go:31-45 | An entry is counted and registered, or no scan with this prefix succeeds. |
| ScanScope.BundleScan.CountBytes | pkg/codesign/bundle_tree.go:47-53 | The same for the checked byte count. |
| ScanScope.BundleScan.CountChild | pkg/codesign/bundle_tree.go:55-61 | The same for the count of nested code and of versions not selected. |
| ScanScope.BundleScan.RegisterTarget | pkg/codesign/bundle_tree.go:63-71 | The same for write targets and the hard links among regular files. |
| ScanScope.BundleScan.RegisterRegular | pkg/codesign/bundle_tree.go:73-81 | The same for regular files and the hard links among write targets. |
| ScanScope.BundleScan.Note | pkg/codesign/bundle.go:469-475 | A seal is noted in its envelope. |
| ScanScope.RunIsAcceptable | pkg/codesign/bundle_tree.go:15-81 | A scan of consistent effects succeeds exactly when no two effects clash and the budgets suffice, and then holds exactly what the effects say. |
| ScanScope.RunAnyOrder | pkg/codesign/bundle_tree.go:15-81 | Reordering the effects changes neither verdict nor resulting scope. |
| ScanLaws.TreeReordered | pkg/codesign/bundle_walk.go:35-83 | Listing directories in another order performs the same effects in another order, inventory and root entries included. |
| ScanLaws.TreeTruthful | pkg/codesign/bundle.go:222-482 | What a scan registers or seals is what the tree holds at that path. |
| ScanLaws.EffectsConsistent | pkg/codesign/bundle.go:222-482 | No two effects of one scan disagree about a path. |
| ScanLaws.ScanAnyOrder | pkg/codesign/bundle_walk.go:22-83 | Filesystem order and sorted order give the same verdict and the same seals. |
| ScanLaws.LeafSealed | pkg/codesign/bundle.go:271-477 | A file or link that is not refused is sealed or exempt. |
| ScanLaws.PathSealed | pkg/codesign/bundle.go:271-477 | So is everything below a folder, unless a child bundle is sealed around it. |
| ScanLaws.SealingComplete | pkg/codesign/bundle.go:222-482 | After a successful scan every file and link is sealed, lies in a sealed child bundle, or is exempt by an explicit rule; outside the selected version of a framework there are only links that name the current version, plain metadata files and other versions. |
| ScanLaws.InventoryUnsealed | pkg/codesign/bundle_versions.go:12-56 | Versions that are not selected are gone through without sealing anything. |
| ScanLaws.VersionsApart | pkg/codesign/bundle_tree.go:122-156 | The seals of a nested framework and of its other versions never name one path twice. |
| ScanLaws.SealIsTrue | pkg/codesign/bundle.go:373-475 | Every seal of a successful scan is that of the node at its path. |
| ScanLaws.EqualSealsEqualContent | pkg/codesign/bundle.go:373-475 | With an injective hash, two accepted trees with equal envelopes agree on kind and content of every sealed path, attribute files apart. |
| ScanSafety.LinkSane | pkg/codesign/bundle.go:364-377 | A link's target is counted before it is sealed. |
| ScanSafety.FileSane | pkg/codesign/bundle.go:378-477 | A sealed file is entered, registered and counted, and as nested code a write target and one child. |
| ScanSafety.ChildSane | pkg/codesign/bundle_tree.go:91-158 | A sealed child bundle is entered, counted once, and registers its executable and envelope. |
| ScanSafety.NodeSane | pkg/codesign/bundle.go:258-477 | So for every entry, whatever it is classified as. |
| ScanSafety.WritesStayApart | pkg/codesign/bundle_tree.go:63-81 | After a successful scan, no file that signing may write, at any depth, shares an inode with another sealed file. |
| ScanSafety.VersionsStayApart | pkg/codesign/bundle_versions.go:9-56 | Nor with any file of a version that is not selected, of the framework itself or of a nested one. |
| ScanSafety.NamesStayApart | pkg/codesign/bundle_tree.go:31-45 | No two sealed paths differ in letter case alone. |
| ScanSafety.WorkIsCounted | pkg/codesign/bundle_tree.go:47-61 | The nested count is the number of nested code objects and bundles sealed and of other versions, at most 64; the byte count covers every sealed byte and does not overflow. |
| ScanEnvelope.SealedRole | pkg/codesign/bundle.go:271-363 | Only entries below the resource base, outside its three fixed directories, are sealed or descended into as children; links and children never stand for the executable or the envelope. |
| ScanEnvelope.TreeProper | pkg/codesign/bundle.go:222-482 | Every seal of a scan is the bundle's own, with the inclusion and the mark of the resource policy, or lies inside a sealed child. |
| ScanEnvelope.MainIsNotSealed | pkg/codesign/bundle.go:314-395 | No scan of a bundle seals the bundle's own executable or envelope; only an attribute file of the executable's name is noted as exempt. |
| ScanEnvelope.ChildrenApart | pkg/codesign/bundle.go:343-357 | The child bundles of a bundle are different directories, none within another. |
| OwnSeals.OwnExactly | pkg/codesign/bundle.go:271-475 | For every bundle a scan goes through, at any depth: the seals left to the bundle itself are exactly those of the entries reached through ordinary folders, each as its place and content demand. |
| Places.RoleByPlace | pkg/codesign/bundle.go:271-363 | What becomes of an entry below the resource base: for each role, the place and the kind of entry that get it, and no others. |
| Places.RoleOutside | pkg/codesign/bundle.go:271-286 | And of an entry outside the base. |
| Places.CodeFolders | pkg/codesign/bundle_nested.go:18-30 | Which paths are folders of nested code and which lie inside one, by their components. |
| Places.BundleNames | pkg/codesign/bundle_layout.go:12-18 | A name is that of a bundle exactly when it ends in one of six suffixes, in any case. |
| PlaceSeals.AllReached | pkg/codesign/bundle.go:258-363 | The walk of an accepted scan gets everywhere but into sealed children. |
| PlaceSeals.SealedByPlace | pkg/codesign/bundle.go:271-475 | Each entry of an accepted scan that lies in no sealed child is sealed exactly as its place and its content demand: nested code below the folders of code and beside the fixed files, resources by their hash, links by their target, child bundles as a whole. |
| PlaceSeals.EntryByPlace | pkg/codesign/bundle.go:271-475 | All effects of one file or link by its place: what is registered, what is a write target, what is counted, what is sealed in which envelope, and that it is refused at any other place. |
| Acceptance.StrayExactly | pkg/codesign/bundle_versions.go:21-49 | A version that is gone through is refused exactly when it holds something other than directories, files and links. |
| Acceptance.ChildExactly | pkg/codesign/bundle_tree.go:91-158 | A child bundle is accepted exactly when it is at most eight levels down, has a layout, and it and its other versions are accepted. |
| Acceptance.AcceptedExactly | pkg/codesign/bundle.go:222-482 | A tree is refused nowhere exactly when its root is as a framework's should be, every entry the walk gets to is as its place demands, and the other versions hold nothing strange. |
| TwoScans.RolesAgree | pkg/codesign/bundle.go:271-363 | Modes decide which entries are refused and whether attribute files are spared, but nothing else about an entry. |
| TwoScans.SealFollows | pkg/codesign/bundle.go:271-475 | Two accepted scans, whatever their modes, of trees alike along a path seal that path in the same way. |
| TreeWalk.Decide | pkg/codesign/bundle_resources.go:77-91 | The scan asks the resource policy of the rules as compiled. |
| TreeWalk.SealContent | pkg/codesign/bundle.go:396-477 | A file's bytes are counted and sealed in the envelopes whose policy includes it, nested code as code. |
| TreeWalk.ScanFile | pkg/codesign/bundle.go:378-477 | A regular file is registered, also as write target when nested, and sealed unless exempt. |
| TreeWalk.ScanLink | pkg/codesign/bundle.go:364-377 | A link is tested, counted and sealed. |
| TreeWalk.ScanNode | pkg/codesign/bundle.go:258-477 | The classification of one entry, with all its effects, attribute files included. |
| TreeWalk.ScanDirectory | pkg/codesign/bundle_walk.go:35-61 | The recursive walk visits every entry of a directory in listing order. |
| TreeWalk.ScanChild | pkg/codesign/bundle_tree.go:91-158 | A child bundle within the depth limit is counted, loaded, scanned with all its versions, and sealed. |
| TreeWalk.ScanAlternates | pkg/codesign/bundle_tree.go:129-156 | Verification scans a nested framework once more for each version that is not selected. |
| TreeWalk.ScanVersion | pkg/codesign/bundle_tree.go:130-154 | One other version is counted, loaded and scanned. |
| TreeWalk.Snapshot | pkg/codesign/bundle_tree.go:160-203 | A snapshot counts property list, tree or root entries, executable and envelope. |
| TreeWalk.CountCode | pkg/codesign/bundle_tree.go:181-201 | The executable is counted, and the envelope where it is read. |
| TreeWalk.ValidateRoot | pkg/codesign/bundle_layout.go:78-158 | A framework root is accepted exactly when it holds its versions, the entries it must have, and else only links that stand for entries of the current version and plain metadata. |
| TreeWalk.ValidateListing | pkg/codesign/bundle_layout.go:86-157 | One directory of the root: every entry is checked, what is required is ticked off, versions are collected. |
| TreeWalk.EnterLayout | pkg/codesign/bundle.go:224-234 | The entries of the root are entered once, whatever versions are scanned. |
| TreeWalk.StrayNode | pkg/codesign/bundle_versions.go:21-49 | A member of another version is entered; a file is registered and counted; links are not followed. |
| TreeWalk.InventoryVersion | pkg/codesign/bundle_versions.go:14-53 | One version that is not selected is counted and gone through. |
| TreeWalk.InventoryOtherVersions | pkg/codesign/bundle_versions.go:12-56 | So are all of them, unless they are scanned as versions of a nested framework. |
| TreeWalk.ScanTree | pkg/codesign/bundle.go:222-482 | Root first, then the write targets, the walk from the selected version, and the other versions. |
| TreeWalk.RegisterTargets | pkg/codesign/bundle.go:235-247 | Executable and envelope are registered as write targets where they exist. |
| TreeWalk.WalkTree | pkg/codesign/bundle.go:248-258 | The walk begins at the selected version of a framework, else at the root. |
| TreeWalk.Scan | pkg/codesign/bundle.go:218-482 | The verdict and both envelopes are those of every other listing order, and sealing is complete. |
| FrameworkExample.FrameworkAccepted | pkg/codesign/bundle.go:222-482 | A framework with a current and an older version is accepted by a scan that signs, its executable registered for writing and the older version gone through. |
| ResourceVerification.VerifyEntry | pkg/codesign/resource_verification.go:62-102 | One sealed name is judged as specified, whatever order the rules were compiled in; `FindingExactly` says how. |
| ResourceVerification.FindingExactly | pkg/codesign/resource_verification.go:62-102 | When a name is found added, fatal, missing or modified, when it passes, and when that depends on a closer look at nested code or a link. |
| ResourceVerification.CheckNames | pkg/codesign/bundle_resources.go:139-164 | The loop collects every local finding, spares attribute files, or stops at the first name that cannot be judged. |
| ResourceVerification.SortedNames | pkg/codesign/bundle_resources.go:132-137 | The names of a map come out in the order of their spelling, whatever order it is enumerated in. |
| ResourceVerification.VerifyResources | pkg/codesign/bundle_resources.go:120-169 | Passes exactly when the profile fits and every present or sealed name passes; otherwise reports exactly the local findings, or the first name in order that stops it. |
| EnvelopeLaws.VerifiesExactly | pkg/codesign/resource_verification.go:62-102 | A name passes exactly when it was sealed and matches its seal, or is missing and was optional, or is an attribute file. |
| EnvelopeLaws.OwnIsPoliced | pkg/codesign/bundle.go:364-475 | What a scan seals is what the verifier's policy demands of a seal. |
| EnvelopeLaws.OwnByReach | pkg/codesign/bundle.go:271-475 | The seals of an accepted scan that are the bundle's own, read off the tree. |
| EnvelopeLaws.SigningSparesNone | pkg/codesign/bundle.go:314-322 | Only verification exempts attribute files. |
| EnvelopeLaws.EnvelopeBindsTree | pkg/codesign/bundle_resources.go:116-169 | Whatever modes the bundle was signed and verified in: with an injective hash, a verified envelope leaves nothing added, nothing changed, and nothing missing that was not optional, attribute files apart. |
| SignThenVerify.HashedIsNotRewritten | pkg/codesign/bundle_tree.go:63-81 | No file that is sealed by its hash is one that signing writes, under this name or through a hard link. |
| SignThenVerify.SealsStay | pkg/codesign/bundle.go:559-566 | Everything signing sealed is found again after signing wrote, resources and links with the same seal, nested code as nested code. |
| SignThenVerify.NothingIsAdded | pkg/codesign/bundle.go:559-566 | Nothing else is found, attribute files apart. |
| SignThenVerify.SignedVerifies | pkg/codesign/bundle_resources.go:120-169 | Sign, then verify in any modes: the envelope verifies exactly when the nested code, links and attached data found pass their own checks; comparing resources never fails. |
| SignThenVerify.EnvelopeVerifies | pkg/codesign/bundle_resources.go:116-169 | In particular for a tree nobody touched, scanned once as signing does and once as verification does. |
| SignThenVerify.ModesSealAlike | pkg/codesign/bundle.go:559-563 | The two scans leave the bundle the same seals, attribute files apart. |
| SignThenVerify.VerifySigned | pkg/codesign/bundle_resources.go:120-169 | The verifying loop accepts a signed bundle exactly when those checks pass. |
| SignatureAttributes.Survivors | internal/sideband/signature.go:112-151 | A record survives exactly when no event removed its name. |
| SignatureAttributes.OutsideStays | internal/sideband/signature.go:112-151 | However far removal got, names, values and order outside the namespace are unchanged. |
| SignatureAttributes.OnlyRemoves | internal/sideband/signature.go:112-151 | However far removal got, what is left is what was there without some names of the namespace: no record is changed, added or moved. |
| SignatureAttributes.ScriptClears | internal/sideband/signature.go:112-151 | The complete removal leaves exactly what lies outside the namespace, letter case folded on Windows. |
| SignatureAttributes.Store.Remove | internal/sideband/signature.go:60-72 | One removal takes out the name or changes nothing; names outside a known inventory count as removed; it fails exactly when the host does or the store refuses. |
| SignatureAttributes.RemoveSlots | internal/sideband/signature.go:113-132 | The canonical slots, the hook and the listing happen in this order, and stop anywhere. |
| SignatureAttributes.RemoveSteps | internal/sideband/signature.go:112-151 | What happened is a prefix of the removal script, the whole of it on success; success exactly when nothing goes wrong and the store can lose the namespace. |
| SignatureAttributes.RemoveNative | internal/sideband/signature.go:86-106 | The same for the file itself, where Linux is only asked for names of its inventory. |
| SignatureAttributes.FlushPlaced | internal/sideband/signature.go:41-80 | The hook occurs once, after all canonical slots and before the last listing, with a carrier or without. |
| SignatureAttributes.RemoveFromBoth | internal/sideband/signature.go:46-80 | File first, carrier second; on every way out each store differs only by removed names of the namespace. |
| SignatureAttributes.RemoveBeforeFlush | internal/sideband/signature.go:41-80 | It succeeds exactly when no host operation fails, the caller stays, and file and carrier can be written or are known to have nothing of the namespace. Success leaves no name of the namespace and everything else as it was, and runs the hook exactly once in its place; any failure leaves stores that differ only by removed names of the namespace. |
| MetadataPolicy.InspectCarrier | internal/sideband/sideband.go:188-210 | A snapshot shows an attribute by its fixed slot or any nonempty record. |
| MetadataPolicy.InspectPolicy | internal/sideband/sideband.go:109-186 | The loop gives the verdict of the resource policy or of the first-match policy, errors included. |
| MetadataPolicy.InspectExactly | internal/sideband/sideband.go:109-186 | The resource policy answers exactly when nothing fails, and then lists what object and companion have; otherwise it reports the first failure: inventory, the two questions, companion. |
| MetadataPolicy.FirstExactly | internal/sideband/sideband.go:109-186 | The code policy stops at the first attribute it finds, and reports a companion it cannot read before the second question. |
| MetadataPolicy.FirstIsHead | internal/sideband/sideband.go:56-62 | Whenever everything can be inspected, the first-match policy reports the head of the names. |
| MetadataPolicy.FirstAnswersEarlier | internal/sideband/sideband.go:52-62 | It answers where inspection fails exactly when an attribute is found before the failure. |
| MetadataPolicy.Observe | internal/sideband/observation.go:47-64 | Replaying an observation equals asking directly, errors included, on every platform, for every carrier and in both modes. |
| MetadataPolicy.ObserveFile | internal/sideband/observation.go:31-45 | An object that cannot be opened answers every query with that error; a failing close spoils every answer. |
| MetadataPolicy.ReplayAgrees | internal/sideband/observation.go:67-82 | Without a failing close, replay and direct inspection agree, errors included. With one, they part on success exactly when it is forgiven like a query's on every query still made. |
| MetadataPolicy.SameReport | internal/sideband/observation.go:37-44 | After a failing close, both report the same stage and causes exactly when the inspection fails on the inventory, on the query where the replay stops, or on a carrier whose error covers that of the close. |
| MetadataPolicy.ForgottenFailure | internal/sideband/observation.go:37-44 | An error the replay loses although the close was not forgiven. |
| MetadataPolicy.ForgottenFork | internal/sideband/observation.go:37-43 | A resource fork that the replay does not report. |
| MetadataStrip.StripOne | internal/sideband/strip.go:60-73 | The size query removes what it finds; a query may be forgiven a permission error, a removal may not; it is cancelled exactly when the caller has left. |
| MetadataStrip.StripNative | internal/sideband/strip.go:58-78 | Success exactly when the caller stays and the host allows it, and then the next inspection finds nothing; only nonempty prohibited attributes are ever removed. |
| MetadataStrip.RewrittenShows | internal/sideband/strip.go:84-103 | Rewriting a carrier hides exactly the one attribute. |
| MetadataStrip.CarrierFile.RemoveAttribute | internal/sideband/strip.go:15-21 | A removed attribute is no longer shown, unrelated values are kept in order, and a refusal changes nothing. |
| MetadataStrip.StripCarrier | internal/sideband/strip.go:36-55 | Success exactly when the caller stays and the carrier yields all it shows, and then it shows nothing; unrelated and empty records stay in order wherever it stops. |
| MetadataStrip.Strip | internal/sideband/strip.go:26-56 | It succeeds exactly when nothing goes wrong and file and carrier yield all that is prohibited; then neither shows a prohibited attribute to an inspection. |
| Der.WriteHeader | pkg/codesign/entitlements.go:18-35 | The header is the definite form of section 8.1.3 of X.690 in the fewest bytes, for any 64-bit length. |
| Der.ReadWrapped | pkg/codesign/entitlements.go:14-16 | A wrapped value is read back whatever follows it. |
| Der.WrapRead | pkg/codesign/entitlements.go:14-35 | Only one byte string reads as a given value. |
| SignedAttributes.DerSet | pkg/codesign/cms.go:80-83 | Elements are sorted where they are and wrapped as a SET OF. |
| SignedAttributes.ReadEncoded | pkg/codesign/cms.go:101-103 | An attribute is read back from its encoding. |
| SignedAttributes.EncodedRead | pkg/codesign/cms.go:333-339 | Whatever reads as an attribute is the encoding of it. |
| SignedAttributes.ParseAttributes | pkg/codesign/cms.go:317-347 | The loop computes the specified strict parse. |
| SignedAttributes.ParseConcat | pkg/codesign/cms.go:323-345 | Elements in strict order with distinct identifiers are accepted and all recorded. |
| SignedAttributes.PartsOf | pkg/codesign/cms.go:323-345 | What is accepted consists of such elements. |
| SignedAttributes.BuiltIsAccepted | pkg/codesign/cms.go:173-179 | The sorted SET is accepted under its stored tag with every attribute recovered. |
| SignedAttributes.AcceptedExactly | pkg/codesign/cms.go:317-347 | The reader accepts exactly the contents that sorting distinct attributes yields, per section 11.6 of X.690. |
| SignedAttributes.ExtraIsSkipped | pkg/codesign/cms.go:323-345 | Bytes behind the values of an attribute are skipped, and it is recorded without them. |
| SignedAttributes.SpareByte | pkg/codesign/cms.go:323-345 | Two spellings that read as one attribute. |
| AttributeBinding.DigestInput | pkg/codesign/cms.go:310-315 | The digest is taken of the SET header and the stored content, per section 5.4 of RFC 5652. |
| AttributeBinding.Retagged | pkg/codesign/cms.go:198-199 | Replacing the tag leaves the content a reader sees. |
| AttributeBinding.BuiltParses | pkg/codesign/cms.go:173-179 | The five attributes of a signature are recovered with their values. |
| AttributeBinding.NamesExactly | pkg/codesign/cms.go:385-426 | What every accepted set of attributes holds, byte by byte: the content type of data, the primary digest, all hashes as a list and as a set, and no bad time. |
| AttributeBinding.SignedNames | pkg/codesign/cms.go:385-426 | The verifier's attribute checks pass exactly for the binding that was signed. |
| AttributeBinding.VerifyAttributes | pkg/codesign/cms.go:385-434 | Accepts exactly attributes that name the binding and whose SET was signed. |
| AttributeBinding.SignAttributes | pkg/codesign/cms.go:149-201 | What is stored reads back as what was signed, and verifies for exactly the binding it was made for. |
| DirectoryBinding.DirectoryHashes | pkg/codesign/cms.go:105-138 | The loop lists hash and digest of every directory, or reports the first fault. |
| DirectoryBinding.ListingMeans | pkg/codesign/cms.go:105-138 | Every directory is listed once and in order, unless one is unusable or two share a digest. |
| DirectoryBinding.ListedExactly | pkg/codesign/cms.go:105-138 | The hash of a directory is its digest cut to 20 bytes, its entry the identifier and the whole digest; the cut SHA-256 of older directories is announced in full. |
| DirectoryBinding.ClashesExactly | pkg/codesign/cms.go:105-138 | Two directories clash exactly when they announce the same digest. |
| DirectoryBinding.BindDirectories | pkg/codesign/cms_binding.go:77-84 | The binding in memory takes the first directory as primary. |
| DirectoryBinding.CmsBinding | pkg/codesign/cms_binding.go:33-75 | The nested loop over slots and index lists the directories in slot order. |
| DirectoryBinding.OrderedCount | pkg/codesign/cms_binding.go:40-44 | The pass over slots meets every directory of the index exactly once. |
| DirectoryBinding.ListAlike | pkg/codesign/cms_binding.go:33-84 | Directories of an index and their bytes list alike. |
| DirectoryBinding.StreamedIsDirect | pkg/codesign/cms_binding.go:16-84 | Streamed and direct binding are equal, errors included, exactly when there is a primary directory or none at all. |
| DirectoryBinding.AlternateAlone | pkg/codesign/cms_binding.go:16-84 | An index with an alternate and no primary: streaming binds it, memory refuses it. |
| DirectoryBinding.AnyIndexOrder | pkg/codesign/cms_binding.go:39-44 | The order of the container's index does not matter. |
| DirectoryBinding.AcceptedBindsAlike | pkg/codesign/cms_binding.go:16-31 | For every container that parsing accepts, both ways of binding agree. |

## Left out

- SigningPlan.PrepareNested: the map is rewritten as a value rather than through the pointer its owner shares.
- SigningPlan.PlanSignature: the cap on the encoded envelope is a size function; envelope text, identifiers and Mach-O contents are parameters.
- PlanLaws.PlanHolds: bundles are told apart by numbers in place of pointers.
- BundleWriter.ApplyBundleWrites: stale signature files, access times, ownership and the rename dance of one replacement are one outcome per write.
- BundleSigning.SignBundle: opening the bundle, the preceding scan and replacement notices are not part of it; the scan is modelled on its own.
- CertificatePath.VerifyCertificateChainFor: the zero time and error causes are not modelled; a search that hits its limit reports failure like any other, and what the description contains is not part of the result.
- SignatureContainer.ParseSignatureRange: bytes do not change while they are read, and read errors do not occur.
- ScannedBundle.ScanFitsPlanner: contents, identities and what loading records beside the places of a bundle are parameters.
- SignThenVerify.SignedVerifies: the nested checks are parameters; a nested bundle is judged by them as a whole.
- ResourcePolicy.MatchesExactly: the regular expressions of the rules are spelled out by hand, one by one; their engine is not modelled.
- LinkContainment.ResourceLink: paths are sequences of components; splitting and joining of the text is not modelled beyond splitting a target at slashes.
- TreeWalk.ScanFile: resource sideband checks, and read errors or changes while a file is hashed.
- TreeWalk.ScanChild: metadata checks before a child is signed; what loading a bundle or one of its versions yields is part of the tree.
- TreeWalk.ValidateRoot: finding out which version is selected and current is part of loading.
- TreeWalk.Scan: as its parts, and no stripping or other change of the tree while it runs; the seals of all bundles share two maps keyed by the path from the root; whether a file carries attributes of its companion is a mark on the file; letter case folds for ASCII only, which is all that accepted paths contain.
- ScanLaws.EqualSealsEqualContent: a sealed child bundle counts as such; the content of its own seal is what the planner's laws are about.
- ResourceVerification.VerifyResources: decoding and the profile test of the property list are one flag; nested code, strict links and attached data are judged by parameters.
- SignatureAttributes.RemoveBeforeFlush: the hook itself changes no attribute; an unsuccessful removal changes none either.
- MetadataPolicy.InspectPolicy: cancellation between queries; decoding of carriers.
- MetadataStrip.StripNative: the host's answers and refusals are settled per name.
- AttributeBinding.VerifyAttributes: certificate lookup, timestamps, the choice of signature algorithm and BER framing of the message; values are compared by their content, which determines their bytes.
- AttributeBinding.SignAttributes: validation of the identity, the check of the signer's output and BER framing of the message.
- DirectoryBinding.CmsBinding: read errors while hashing a range.
- Verification of a nested application beyond its place in the parent's envelope, reports and diagnostics.
- The versioned reader that borrows ranges of a file (`parseSignatureView`), except for the directories it yields.
- Entitlements, requirements, timestamps, Mach-O and disk image layout, command line and configuration.
