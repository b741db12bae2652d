# PII policy engine: a verified model

This project models the policy engine of the repository: detectors report spans, the planner merges
them into regions and rewrites the text, the policy service turns all text leaves into one decision
with a report and a reversal map, and the runtime keeps a sticky decision per session. Around that
core it models admission under a concurrency limit, the splitters that feed remote and local
recognizers, the findings cache, the structural check of JSON arguments, and the publication of model
bundles.

Detectors, safety rules, the classifier, the anonymizer, the keyed hash, the digest of placeholders,
tokenizers and hashes of files are arbitrary functions or arbitrary inputs. Scores and times are real
numbers. A lemma assumes more of them only where its `requires` says so: digests of sixteen hex
digits, an injective cache hash, monotone token offsets.

## Layout

- `Ordering`, `Spans`: sort keys as Python compares tuples, and overlap components of spans.
- `PolicyConfig`, `Matches`, `Regions`, `Prepare`, `Owners`: policy lookup, the planner's functions of
  the match set, what they guarantee, and who owns a region.
- `Rewrite`, `Planner`: the left-to-right meaning of rewriting, and the planner object whose loops
  are proved against it.
- `Restore`, `RoundTrip`, `Refusal`: the placeholder grammar, the restoring scan, the round trip, and
  when a request is refused over its placeholders.
- `Contracts`: requests, results, and every validator of a response and of a stored decision.
- `Policy`, `LeafFacts`, `Aggregate`, `Verdict`, `Response`: the pipeline as a function, and its
  decision, counts and validity.
- `Requests`, `Figures`, `Routes`, `Results`: what answers or refuses a request before analysis, and
  what an answer reports, where it goes, its segments, notices and actions, all stated over the request,
  the detector's matches and the policy's entries.
- `WholeRequest`: the decision as a join with the face action, and for any order of segments.
- `PolicyService`: the service's loops over mutable plans and results, proved against that function.
- `Session`, `Sticky`, `FixedService`, `Legacy`, `Runtime`: sticky session decisions over runs and over
  overlapping requests, what one request is answered and stores, for which services their guard is exact, the stricter validators of the
  request-shaped response, and the runtime and store objects.
- `Semaphores`, `Limiter`, `Admission`, `Progress`: the FIFO semaphore, the limiter, worker threads that
  outlive their callers, and why every task comes to its end.
- `Windows`, `RemoteWindows`, `TokenWindows`, `BaselineChunks`: the window splitters.
- `NerCache`, `Traversal`, `Bundle`, `Publish`, `ModelSync`: the findings cache, the JSON check, and
  the publish protocol.

A method that loops over mutable state is proved equal to a function of its inputs; the theorems are
about that function. What an answer is - the owner of a region, the text in its place, the decision, the
route, the figures, the notices, what a session stores, who is refused at the limiter - is stated over the
inputs themselves: the matches, the request, the entries of the policy, the permits and the queue. `names` in several lemmas is a catalogue of at most 64 text entity names; `FACE`
is not among them, and takes one of the 64 places only where faces were found. Interleavings are runs
over atomic steps: code between two suspension points of a coroutine, one locked section of a thread,
or one filesystem operation.

Two properties fail in general, and the model proves exactly when they hold. Session taint is
monotone over overlapping requests when each, as it writes, had read a block or a decision at least
as sticky as what is stored by then; for any other pair of read and stored decisions some service
and some request break the order (`Session.FinishKeepsOrder`, `Session.LastWriterWins`). For one
fixed service the guard always suffices; that it is also necessary is proved for the services
`FixedService.Versatile` names, and for every service where a block is stored and nothing was read
(`FixedService.FixedServiceKeepsOrder`). A complete bundle directory is never altered when the cache
starts without a directory that only junk files keep from being complete; such a directory becomes
complete while its junk is being removed and is altered all the same (`Publish.NeverAltered`,
`Publish.TransientlyComplete`). Directories complete as a call begins are kept by that call in every
case (`Publish.CompleteAtStartIsKept`). The midpoint rule of baseline chunks holds for spans one
character longer than twice the overlap, and for no longer ones (`BaselineChunks.OwnerContains`,
`BaselineChunks.WiderIsCut`).

Where a waiter may stand beside a free permit, the model follows the semaphore: an arriving waiter
queues behind one that was granted a permit but has not resumed, and is woken when that one does.

## Model

| member | source | states |
|---|---|---|
| Regions.RegionsAreComponents | src/pii_engine/services/planner.py:265-289 | For every valid match list the effective regions are sorted, disjoint, and exactly the connected components of strict overlap among the raw matches |
| Regions.SameRegionIffConnected | src/pii_engine/services/planner.py:265-321 | Two raw matches end up in one region if and only if a chain of strictly overlapping raw matches links them |
| Regions.CoveredIffMatched | src/pii_engine/services/planner.py:265-289 | A character lies in some effective region if and only if some raw match covers it |
| Regions.CoalescingChangesNoRegion | src/pii_engine/services/planner.py:300-321 | Coalescing each entity first leaves the same components as sweeping the raw matches directly |
| Spans.SweepComponents | src/pii_engine/services/planner.py:276-288 | The start-ordered sweep over spans yields exactly the overlap components of the swept set |
| Spans.ComponentsUnique | src/pii_engine/services/planner.py:265-289 | A set of spans has only one sorted disjoint list of overlap components |
| Prepare.PrepareIgnoresOrder | src/pii_engine/services/planner.py:88-103 | Reordering or duplicating detector output changes neither logical matches, effective regions and winners, nor the overlap count |
| Prepare.CountsWithinText | src/pii_engine/services/planner.py:300-321 | Per entity the detected count, and the overlap count, are at most the number of characters |
| Prepare.EffectiveAtMostDetected | src/pii_engine/services/planner.py:346-372 | An entity never owns more effective regions than it has logical detections |
| Owners.StrictestOwns | src/pii_engine/services/planner.py:346-361 | In the order pass, mask, hash, encrypt, reversible replace, replace, redact, reroute, block, the action of every region is the latest among the actions of the raw matches inside it |
| Owners.BestOwns | src/pii_engine/services/planner.py:346-372 | Among the logical detections inside a region its owner has the strictest action, then the largest width, then the highest score, then the first name, source and position; entity, score and source of the region are the owner's |
| Owners.BestRepresents | src/pii_engine/services/planner.py:324-343 | A logical detection takes score, source and width from the widest match of its entity inside it, then the one of highest score, then the first by source and position |
| Owners.GroupIsInside | src/pii_engine/services/planner.py:308-320 | A logical detection is coalesced from exactly the matches of its entity that lie inside it |
| Owners.CountIsComponents | src/pii_engine/services/planner.py:300-321 | The detected count of an entity is the number of overlap components of its own matches |
| Owners.OverlapsCounted | src/pii_engine/services/planner.py:274-288 | The overlap count is the number of regions that matches of at least two entity types lie in |
| PolicyConfig.StrictnessIsOrder | src/pii_engine/lib/actions.py:24-100 | The strictness numbers put the actions in that order and tell them apart |
| PolicyConfig.EffectiveIsResolved | src/pii_engine/services/planner.py:194-206 | Each entity type resolves to exactly one action: that of its policy entry, else the default, with block for reroute where there is no local route |
| Ordering.KeyLessExactly | src/pii_engine/services/planner.py:276-278 | A sort key comes first exactly when it has the smaller component at the first difference, or ends there |
| Ordering.StrLessExactly | src/pii_engine/services/planner.py:276-278 | A string comes first exactly when it has the smaller character at the first difference, or ends there |
| Prepare.RegionsJoinMatches | src/pii_engine/services/planner.py:346-372 | Some region reaches a strictness level exactly when some raw match does, so regions lose no terminal action |
| Prepare.UniqueRegion | src/pii_engine/services/policy.py:308-322 | Every logical detection overlaps exactly one effective region, so the diagnostics lookup is total and unambiguous |
| Planner.ActionPlanner.ValidateSpans | src/pii_engine/services/planner.py:292-298 | Accepts exactly the lists whose spans lie in the text, are non-empty, and score between zero and one; otherwise reports the fault of the first invalid match, its span before its score |
| Planner.FirstFault | src/pii_engine/services/planner.py:292-298 | The first match with a bad span or score decides the error, by its span before its score |
| Planner.ActionPlanner.ByEntity | src/pii_engine/services/planner.py:303-305 | Files the distinct matches per entity: same keys as the entities found, each list complete and duplicate-free, whatever the set order |
| Planner.ActionPlanner.CoalesceEntity | src/pii_engine/services/planner.py:308-320 | The loop over one entity closes and opens groups as the overlap sweep does and coalesces each group |
| Planner.ActionPlanner.CoalesceSameEntity | src/pii_engine/services/planner.py:300-321 | Yields the logical detections, a function of the match set alone |
| Planner.ActionPlanner.ResolveGroups | src/pii_engine/services/planner.py:274-288 | Resolves each cross-entity overlap group to its strictest owner over the union, and counts groups of several entities |
| Planner.ActionPlanner.ResolveMatches | src/pii_engine/services/planner.py:265-289 | Succeeds exactly on valid spans, with logical detections, effective regions and overlap count as specified; fails with the first fault |
| Planner.CountsMeaning | src/pii_engine/services/planner.py:112-124 | The plan dictionaries hold one key per detected entity, its number of logical detections, and its effective action |
| Planner.ActionPlanner.SummarizeDetections | src/pii_engine/services/planner.py:112-124 | Collects every logical detection in the plan; the inconsistent-action error cannot occur |
| Planner.ActionPlanner.SummarizeEffectiveActions | src/pii_engine/services/planner.py:126-148 | Records terminal actions, the block flag, rerouted entities and the route of the first rerouted region |
| Planner.ActionPlanner.Prepare | src/pii_engine/services/planner.py:88-103 | Succeeds exactly on valid spans; the new plan is the one determined by the match set |
| Planner.ActionPlanner.RewriteOne | src/pii_engine/services/planner.py:152-187 | Replaces exactly one region by the text its configured action asks for: the keyed hash, the anonymizer's output for mask, replace and redact, its mask for a masked reroute, the REV placeholder over the digest of the original, the ENCRYPTED placeholder over the digest of the cipher; pass, block and an unmasked reroute leave the text alone |
| Planner.ActionPlanner.Record | src/pii_engine/services/planner.py:170-191 | Enters one executed edit into reversal map, counts and actions, or refuses a placeholder that already stands for another text |
| Planner.ActionPlanner.RewriteText | src/pii_engine/services/planner.py:150-192 | Right-to-left rewriting with length-changing replacements equals the left-to-right splice of untouched gaps and one output per original region |
| Planner.ActionPlanner.Transform | src/pii_engine/services/planner.py:105-110 | Fails exactly for a blocked plan or a placeholder conflict, each with its own error; otherwise the new text is the gaps between the regions, unchanged, with one piece in place of each region as its configured action asks, and the plan holds the ledger of its edits |
| Rewrite.SpliceRewrites | src/pii_engine/services/planner.py:150-192 | The left-to-right splice is the gaps of the text, unchanged, in turn with one piece for each region, each what the configured action makes of what the region covered |
| Rewrite.SpliceShift | src/pii_engine/services/planner.py:150-192 | The gap before the first region may be cut anywhere without changing the splice |
| Rewrite.LedgerHolds | src/pii_engine/services/planner.py:258-263 | Every reversible edit is in the reversal map with exactly the original text it replaced |
| Rewrite.LedgerSource | src/pii_engine/services/planner.py:258-263 | The reversal map has no entry that is not such an edit |
| Rewrite.LedgerCounts | src/pii_engine/services/planner.py:188-191 | Transformed counts are edited regions per entity, and distinct values never outnumber them |
| Rewrite.LedgerValues | src/pii_engine/services/planner.py:188-191 | The distinct values recorded for an entity are exactly the texts its edited regions cover |
| Rewrite.LedgerActions | src/pii_engine/services/planner.py:170-187 | An action is recorded exactly when it was terminal or some edited region has it configured |
| Rewrite.EffectiveFits | src/pii_engine/services/planner.py:265-289 | Effective regions are ordered, disjoint and inside their text, as rewriting needs |
| Restore.PlaceholderInGrammar | src/pii_engine/services/planner.py:240-256 | Every placeholder built from a well-formed entity, nonce and digest matches the reversal pattern, with the entity as its named group |
| Restore.GrammarShape | src/pii_engine/controllers/api.py:87-90 | A placeholder has its only `<` first and its only `>` last |
| Restore.MatchUnique | src/pii_engine/controllers/api.py:87-90 | The pattern has at most one match at a position |
| Restore.Simulate | src/pii_engine/controllers/api.py:434-443 | The scanning loop returns the leftmost non-overlapping substitution and counts exactly the restored placeholders per entity |
| Restore.TallyCounts | src/pii_engine/controllers/api.py:434-449 | Each entity is counted as often as a placeholder of it was restored |
| Restore.RestoreItems | src/pii_engine/controllers/api.py:434-443 | Restoring a text of characters and placeholders gives back the original, even where original text looks like a foreign placeholder, and restores exactly the placeholders |
| RoundTrip.LeafText | src/pii_engine/services/planner.py:150-192 | A rewritten leaf is its original characters with one placeholder per undoable edited region |
| RoundTrip.MergedExtends | src/pii_engine/services/policy.py:568-573 | The merged reversal map agrees with the map of every leaf |
| RoundTrip.RestoreLeaves | src/pii_engine/services/policy.py:416-436 | Transforming then restoring all leaves gives the original joined text, and the restored entities are the replaced regions in order |
| RoundTrip.RestoreUndoesTransform | src/pii_engine/controllers/api.py:424-449 | For every request that is not blocked and whose effective regions pass, encrypt, reversibly replace or reroute unmasked, one restore with the reversal map returns the original joined text exactly |
| RoundTrip.SimulateResult | src/pii_engine/controllers/api.py:424-449 | A block is skipped; otherwise the model sees the echo and the user sees its restoration with the restored counts |
| Refusal.TransformsUnlessAmbiguous | src/pii_engine/services/policy.py:416-436 | All leaves transform exactly when no placeholder would stand for two texts anywhere in the request; the merged map then says exactly what each placeholder stands for |
| Refusal.RefusedExactly | src/pii_engine/services/policy.py:204-222 | A request that is not blocked is refused exactly when a placeholder would stand for two texts, or, failing that, when one already occurs in the request text; otherwise it succeeds |
| Requests.BoundsExactly | src/pii_engine/services/policy.py:470-501 | A request is refused over too many segments, too many characters, or as empty, exactly when it has them, the segments judged first; only an MCP request or one with attachments may be empty |
| Requests.CharactersJoined | src/pii_engine/services/policy.py:490-501 | The characters counted are those of all segments: the length of the joined text less its line breaks |
| Requests.AttachmentsBlock | src/pii_engine/services/policy.py:438-456 | Within the limits attachments block a request, with or without text beside them: nothing forwarded or scanned, block the only action, the attachments notice unless MCP |
| Requests.SafetyBlocks | src/pii_engine/services/policy.py:457-468 | Within the limits and without attachments, text that a safety rule rejects blocks a request of any kind under that rule's name, with its message unless MCP |
| Requests.EmptyMcpPasses | src/pii_engine/services/policy.py:438-441 | An MCP request with nothing in it passes with nothing said about it |
| Requests.FacesBlockUnscanned | src/pii_engine/services/policy.py:148-163 | A failed face scan, or faces the policy blocks, block a request without its text being scanned |
| Requests.TextUnread | src/pii_engine/services/policy.py:164-170 | Where only faces are asked about, the text goes through unscanned and unchanged |
| Requests.InvalidMatchRefused | src/pii_engine/services/planner.py:292-298 | A request whose text is analysed fails with the fault of the first bad match of its first bad leaf |
| Requests.ValidMatchesAccepted | src/pii_engine/services/planner.py:292-298 | No request fails over its matches otherwise |
| Requests.SegmentsCounted | src/pii_engine/services/policy.py:136-254 | Every answer says how many segments its request had |
| Verdict.DecisionIsJoin | src/pii_engine/services/policy.py:200-229 | Without faces the decision is the join over all matches of all leaves: block, else reroute, else actions, else pass; reroute counts as block for MCP |
| Verdict.RouteIgnoresSegmentOrder | src/pii_engine/services/policy.py:536-542 | The chosen reroute class is the same for any order of the segments |
| Routes.ResponseRoute | src/pii_engine/services/policy.py:208-236 | The route of an answer: none for a block; the faces' own target; else the target of the first policy entry that names a rerouted type, or the default target; else, but for MCP, the class of the text as it is forwarded |
| Routes.ConflictIsElsewhere | src/pii_engine/services/policy.py:256-261 | Faces and text conflict exactly when some rerouted entity type, taken alone, goes elsewhere than the faces |
| Routes.TargetUnique | src/pii_engine/services/policy.py:536-542 | A set of rerouted types has one target |
| Results.ResponseSegments | src/pii_engine/services/policy.py:416-436 | An answer that is not blocked has the request's segments in order and under their ids, each its own text with the gaps between regions unchanged and each region replaced as its action asks |
| Results.ResponseNotices | src/pii_engine/services/policy.py:551-560 | The notices say exactly whether the request is rerouted, whether what was detected passed or was masked, that nothing was found, and that faces must be withheld; a block after analysis says nothing |
| Results.ResponseActions | src/pii_engine/services/policy.py:416-436 | An answer that is not blocked applies exactly the actions its effective regions resolve to, and the face action; a blocked one applies block alone |
| Figures.TextReports | src/pii_engine/services/policy.py:576-607 | The entities of an answer are those of its matches in name order; per entity the detected, transformed and distinct figures are the numbers of overlap components, of edited regions and of the different texts these cover, over all leaves; the overlap count is the number of mixed regions |
| WholeRequest.DecisionWithFaces | src/pii_engine/services/policy.py:136-299 | Within the limits, with text, without attachments and free of what safety rules reject, the decision is the join of the face action and of the actions all matches of all leaves resolve to: block, else reroute, else actions, else pass; a failed face scan blocks, and so do faces and text rerouted to different places |
| WholeRequest.AnalysisIgnoresSegmentOrder | src/pii_engine/services/policy.py:136-299 | Where both orders succeed under one safety verdict, reordering the segments with their findings changes no decision, entity count, report row, applied action, overlap count, notice or reroute class, with or without faces |
| WholeRequest.SumsPermuted | src/pii_engine/services/policy.py:386-414 | Everything summed over leaves, and every figure of a report row, is the same for any order of the leaves |
| Verdict.BlockedIffLevel | src/pii_engine/services/policy.py:200-202 | Some leaf blocks exactly when some detected entity resolves to block |
| Verdict.AppliedIffLevel | src/pii_engine/services/policy.py:226-229 | Without terminal actions, something beyond pass is applied exactly when some match is not pass, and exactly when some leaf was edited |
| Aggregate.TotalsAgree | src/pii_engine/services/policy.py:563-565 | Merged entity counts are the per-leaf sums, positive exactly for detected entities, and at most the total characters |
| Aggregate.OverlapsBounded | src/pii_engine/services/policy.py:411 | The summed overlap count is at most the total characters |
| Aggregate.TransformedWithinDetected | src/pii_engine/services/policy.py:576-607 | Summed over leaves, distinct transformed <= transformed <= detected |
| Aggregate.RowIffEntity | src/pii_engine/services/policy.py:576-607 | A report row with an action exists exactly when a detected entity resolves to it |
| Aggregate.RowsMatchTotals | src/pii_engine/services/policy.py:576-607 | The rows detected counts are exactly the entity counts |
| Aggregate.RowsValid | src/pii_engine/models/contracts.py:292-331 | The report of any leaves passes the row and report validators |
| Aggregate.TransformedRow | src/pii_engine/services/policy.py:576-607 | Some row claims a transformation exactly when some leaf was edited |
| LeafFacts.PreparedJoin | src/pii_engine/services/planner.py:126-148 | One leaf blocks or reroutes as the join over its detected entities |
| LeafFacts.TransformedFacts | src/pii_engine/services/planner.py:150-192 | One rewritten leaf counts at most what it detected, and its recorded actions are those of edited entities |
| PolicyService.MergeCountsInto | src/pii_engine/services/policy.py:563-565 | The loop adds every source count to the target and keeps all other keys |
| PolicyService.MergeReversalInto | src/pii_engine/services/policy.py:568-573 | Merges two reversal maps, or refuses exactly when one placeholder would stand for two texts |
| PolicyService.ReportRowsOf | src/pii_engine/services/policy.py:576-607 | The nested loops produce one aggregate row per entity in name order; the two consistency errors cannot occur |
| PolicyService.Pipeline.PrepareLeafPlans | src/pii_engine/services/policy.py:386-414 | Succeeds exactly when all leaves are valid, else fails with the fault of the first invalid leaf; plans, entities, counts, routes, rerouted entities and overlaps are those of the leaf list |
| PolicyService.Pipeline.TransformPlans | src/pii_engine/services/policy.py:416-436 | Fails exactly on a conflict within or between leaves; otherwise segments, actions and reversal map belong to all rewritten leaves |
| PolicyService.Pipeline.Replace | src/pii_engine/services/policy.py:427-435 | Filing changed texts under their ids rebuilds every segment in order, given unique ids |
| PolicyService.Pipeline.AnalyzeLeaves | src/pii_engine/services/policy.py:182-254 | The text pipeline over mutable plans returns exactly the specified decision and result, or the specified error |
| PolicyService.Pipeline.ApplyVisualResult | src/pii_engine/services/policy.py:263-299 | Adding face evidence in place yields the specified result |
| PolicyService.Pipeline.Analyze | src/pii_engine/services/policy.py:136-180 | The whole request - preflight, faces, text, visual evidence - gives exactly what the pipeline function specifies, the error of a failing request included |
| Response.AnalyzeTextPre | src/pii_engine/services/policy.py:182-254 | Every text result satisfies the internal count, action, forwarding and visual conditions |
| Response.ReversalValid | src/pii_engine/models/contracts.py:565-577 | Every reversal key matches the placeholder pattern and length, and every value is a non-empty bounded piece of text |
| Response.FacesValid | src/pii_engine/services/policy.py:263-299 | Adding faces to a text or unscanned result keeps it valid |
| Response.PipelineResponseValid | src/pii_engine/models/contracts.py:543-661 | Every result the pipeline returns, with or without faces, text or MCP, passes all metadata, forwarding, report, count, action and visual validators and the serialisation checks, for at most 64 entity types, FACE among them only where faces were found |
| Session.CachedResponseValid | src/pii_engine/runtime.py:600-635 | A response served from a valid stored decision passes every validator |
| Session.MergedResponseValid | src/pii_engine/runtime.py:637-650 | A stored reroute merged into a fresh result passes every validator, for at most 64 text entity types |
| Session.FreshTaintValid | src/pii_engine/services/session.py:43-99 | The decision written for a fresh block or reroute passes the stored-decision validators |
| Session.MergedTaintValid | src/pii_engine/runtime.py:673-696 | The decision written after a merge passes the validators and keeps route, rows and notices while counts only grow |
| Session.StepIsGood | src/pii_engine/runtime.py:246-339 | One request on a key: a valid response, never a validator or result-kind error, at least as strict as the taint read, and a valid sticky stored decision |
| Session.RunIsSafe | src/pii_engine/services/session.py:135-160 | After any run of requests the stored decision still passes its validators, so no later read rejects it |
| Session.TaintIsMonotone | src/pii_engine/runtime.py:637-696 | Between any two points of any run taint only moves none to reroute to block, a block stays as it is, and a reroute keeps route, rows and notices |
| Session.ResponsesRespectTaint | src/pii_engine/runtime.py:281-339 | Every response of a run is valid and at least as strict as every taint stored earlier in the run |
| Session.OverlapKeepsTaint | src/pii_engine/services/session.py:135-160 | However requests on one key overlap, every stored value is valid and a tainted key never becomes untainted |
| Session.FinishKeepsOrder | src/pii_engine/runtime.py:281-339 | Whatever is stored by the time a request writes: it keeps the order for every service and request if and only if it read a block, or a decision at least as sticky as what is stored now |
| Session.GuardedRunIsSticky | src/pii_engine/runtime.py:281-339 | Overlapping requests that all meet this guard when they write keep taint monotone over the whole run |
| FixedService.FixedServiceKeepsOrder | src/pii_engine/runtime.py:281-339 | For one fixed service that masks on reroute, lets some request pass with nothing found and reroutes with different reports, the guard is necessary as well as sufficient; over a stored block it is so for every service |
| FixedService.SomeServiceIsVersatile | src/pii_engine/runtime.py:281-339 | Such services exist: a policy that masks and reroutes everything, with two entity types to detect |
| Sticky.AttachmentsAlwaysBlock | src/pii_engine/runtime.py:620-696 | A session request with attachments that succeeds is blocked whatever is stored, and leaves a block stored |
| Sticky.AnalyzedReroute | src/pii_engine/runtime.py:620-650 | Over a stored reroute, with masking or attachments, segments and reversal map are those of the current analysis; unless that blocks, route and notices are the stored ones, entities the union, and counts the larger of the two |
| Sticky.PlainReroute | src/pii_engine/runtime.py:601-635 | Over a stored reroute, without masking and attachments, the request's own segments come back with the stored counts, rows, route and notices; analysis has no influence and nothing is written |
| Sticky.BlockStored | src/pii_engine/runtime.py:601-635 | A stored block answers every request on its key with what is stored, whatever analysis would find, and stays stored |
| Sticky.NothingStored | src/pii_engine/runtime.py:281-339 | Without a stored decision the answer is the analysis, stamped with its duration |
| Sticky.ReadRefused | src/pii_engine/runtime.py:587-598 | Limits, then the validity of the stored decision, then its kind refuse a request before anything else |
| Sticky.WritesItsAnswer | src/pii_engine/runtime.py:652-696 | A request writes exactly when it is analysed in a session and ends blocked or rerouted; what it writes is its answer, with the rows and overlaps of a reroute that was merged in |
| Sticky.McpAnswer | src/pii_engine/runtime.py:698-708 | No MCP answer carries routing or notices, whatever was stored or analysed |
| Session.LastWriterWins | src/pii_engine/runtime.py:681-696 | Without the guard, two overlapping requests replace a stored block by a reroute |
| Legacy.AdapterFromSegments | src/pii_engine/models/contracts.py:362-521 | The validators of the segment response, and the actions of unscanned visual results, imply every validator of the request-shaped adapter response |
| Legacy.PipelineAdapterValid | src/pii_engine/models/contracts.py:395-521 | Every result of the pipeline passes the stricter validators of the request-shaped adapter response |
| Legacy.SessionAdapterValid | src/pii_engine/models/contracts.py:395-521 | So does every response of a session, fresh, cached or merged |
| Runtime.SessionStore.Get | src/pii_engine/services/session.py:135-148 | Returns what lives under the key and refreshes its lifetime, and rejects exactly a value that fails its validators |
| Runtime.SessionStore.Set | src/pii_engine/services/session.py:150-160 | Stores exactly the decisions that pass their validators, for one lifetime, and leaves other keys alone |
| Runtime.EngineRuntime.ApplyCachedDecision | src/pii_engine/runtime.py:637-650 | Merging in place gives the specified sticky result |
| Runtime.EngineRuntime.TaintSession | src/pii_engine/runtime.py:652-696 | Writes exactly the specified decision, for session-scoped blocks and reroutes only |
| Runtime.EngineRuntime.AnalyzeSegments | src/pii_engine/runtime.py:246-339 | One request end to end returns the specified response or error, reads and refreshes only its own key, and writes there exactly the specified decision |
| Runtime.HoldsForOneLifetime | src/pii_engine/services/session.py:135-160 | For one lifetime after a session request read its key, the key holds what the untimed step says and other keys are untouched |
| Runtime.ExpiresAfterLifetime | src/pii_engine/services/session.py:135-160 | Once a lifetime has passed since a key was last read and written, nothing is live under it |
| Runtime.TimelyTaintIsMonotone | src/pii_engine/services/session.py:135-160 | While each request on a key reads within one lifetime of the one before, what is read stays valid and monotone, expiry included |
| Limiter.AnalysisLimiter.Enter | src/pii_engine/services/limiter.py:44-51 | Refuses exactly when no permit is free to take and as many wait, were granted or are leaving as may be queued; starts exactly when one is free to take; otherwise stands last in the queue |
| Limiter.AnalysisLimiter.ResumeGranted | src/pii_engine/services/limiter.py:54-63 | A granted waiter keeps its permit, leaves the queue count and wakes who may follow |
| Limiter.AnalysisLimiter.LeaveQueue | src/pii_engine/services/limiter.py:56-59 | A timed-out or cancelled waiter leaves the queue count and gives back a permit granted meanwhile |
| Limiter.AnalysisLimiter.Exit | src/pii_engine/services/limiter.py:67-71 | Ending an analysis frees its permit for the first live waiter |
| Limiter.ArrivalExactly | src/pii_engine/services/limiter.py:44-51 | In every reachable state an arriving task is refused, starts or queues last exactly as the permits and the queue of that state say |
| Limiter.FirstComeFirstServed | src/pii_engine/services/limiter.py:52-63 | A waiter that is not cancelled stays behind the one ahead of it, ungranted, until that one has left the queue |
| Limiter.LimiterInvariant | src/pii_engine/services/limiter.py:43-76 | Over all interleavings of entry, grant, timeout, cancellation and exit: free + granted + in flight is the maximum, in flight and queued stay within bounds |
| Limiter.CountersReturnToZero | src/pii_engine/services/limiter.py:43-76 | When every entry has ended both counters are zero and every permit is free |
| Limiter.NobodyWaitsForNothing | src/pii_engine/services/limiter.py:43-76 | No wakeup is lost: nobody waits while no permit is granted or held |
| Semaphores.WakeAllOk | src/pii_engine/services/limiter.py:54-55 | Waking moves waiters to granted in order, conserves permits and leaves nobody waiting beside a free permit |
| Admission.ArrivalAtSlot | src/pii_engine/runtime.py:413-447 | A task that comes to the shared limiter finishes without a thread exactly when no permit can be taken and the queue is full, gets a thread at once exactly when one can, and otherwise queues last; a Studio task without a Studio permit queues there |
| Admission.RefusedOnlyWhenFull | src/pii_engine/runtime.py:413-447 | Over every run, a task that ends without having been served gave up, was cancelled, or met a full queue |
| Admission.LiveThreadsBounded | src/pii_engine/runtime.py:476-520 | In every reachable state live worker threads are within the concurrency limit, Studio ones within the Studio limit, callers gone or not |
| Admission.StartsWithThread | src/pii_engine/runtime.py:476-520 | A task that takes a slot permit gets its worker thread in the same step |
| Admission.ReleasedAfterExit | src/pii_engine/runtime.py:488-520 | A slot permit leaves its holder only on finishing, after its thread has exited |
| Admission.CancelledNeverStarts | src/pii_engine/runtime.py:317-321 | An analysis cancelled before it started never starts a thread |
| Admission.NothingLeaks | src/pii_engine/runtime.py:413-447 | Once nothing is active both limits are whole and both counters zero: no slot leaks |
| Admission.OutlivingThreadsRetained | src/pii_engine/runtime.py:532-554 | A thread that outlives its caller keeps its analysis in the background set |
| Progress.SomeoneMoves | src/pii_engine/services/limiter.py:43-76 | While any task is active, some active task has an enabled step towards its end: no waiter is stranded, cancelled or not |
| Progress.OnwardUsesWork | src/pii_engine/runtime.py:413-447 | Every step a task takes towards its end, whichever is taken, uses up a bounded amount of work |
| Progress.ComesToRest | src/pii_engine/runtime.py:413-447 | From every reachable state the tasks can all come to their end without help from callers |
| Progress.EveryTaskEnds | src/pii_engine/runtime.py:476-520 | Such steps are bounded in number, stop only when nothing is active, and leave both limits whole |
| RemoteWindows.InitialWindows | src/pii_engine/services/remote_analyzer.py:195-202 | The first windows are the specified exact slices within the size, and hold every span up to the overlap whole |
| RemoteWindows.WindowsPlaced | src/pii_engine/services/remote_analyzer.py:195-202 | All windows but the last are full-sized and each starts the overlap before the end of the one before it |
| RemoteWindows.GlinerMatches | src/pii_engine/services/remote_analyzer.py:193-231 | For any pattern of size rejections the scan ends. Its log is exactly what the service was shown, window by window, and answered; it fails only over a fatal answer (broken, too large at 64 characters or less, or out of bounds); otherwise the accepted windows are exact slices holding every short span (32 characters by default) whole, and the matches are the service findings in them |
| RemoteWindows.CollectedInBounds | src/pii_engine/services/remote_analyzer.py:228-231 | Every reported span is inside the full text, and is a finding the service gave for a window it was shown |
| RemoteWindows.SpanSeenWhole | src/pii_engine/services/remote_analyzer.py:193-231 | Every short span of the text was shown whole to the service, in a window whose findings were taken |
| RemoteWindows.RejectedProgress | src/pii_engine/services/remote_analyzer.py:216-227 | Splitting a rejected window loses no short span and shrinks the remaining work |
| RemoteWindows.Unique | src/pii_engine/services/remote_analyzer.py:320-327 | One finding per entity, span and source, the strongest of its duplicates, sorted by span |
| TokenWindows.TokenSlices | src/pii_engine/services/remote_tokens.py:98-105 | The specified token-aligned windows cover every character, hold every span up to the token overlap, and start at most `window` tokens each |
| TokenWindows.SlicesAligned | src/pii_engine/services/remote_tokens.py:98-105 | Window after window starts `window - overlap` tokens later and ends at the token `window` further on, until one ends the text |
| TokenWindows.TokenChunks | src/pii_engine/services/remote_tokens.py:88-126 | With monotone disjoint offsets the splitting ends, yields exactly the recursive pieces of the first windows in text order, and is refused exactly when a piece is too long and has no usable cut; every window is an exact slice within the token limit, and every span up to 64 characters (default overlap) is whole in one |
| TokenWindows.RefusedPiece | src/pii_engine/services/remote_tokens.py:117-124 | A refusal names a chunk of the text with too many tokens and no usable cut |
| TokenWindows.CutAt | src/pii_engine/services/remote_tokens.py:117-124 | Cuts after token number `window`, or the last one, and refuses exactly when there is no token or the cut makes no progress |
| TokenWindows.LocalChunks | src/pii_engine/services/analyzer.py:462-484 | Refuses exactly an unusable context limit; otherwise the chunks cover the text with bounded token counts and overlap |
| BaselineChunks.Chunks | src/pii_engine/services/analyzer.py:487-501 | The chunks are the specified ones: owned ranges of the full size run through the text in order without gaps, and each window extends its range by the overlap |
| BaselineChunks.ChunksDivide | src/pii_engine/services/analyzer.py:487-501 | For every text, size and overlap the owned ranges divide the text and the windows extend them |
| BaselineChunks.OneOwner | src/pii_engine/services/analyzer.py:495-500 | Every position has exactly one owner |
| BaselineChunks.OwnerContains | src/pii_engine/services/analyzer.py:360-363 | For every span up to twice the overlap plus one, exactly one chunk owns its midpoint and contains it whole |
| BaselineChunks.WiderIsCut | src/pii_engine/services/analyzer.py:487-501 | That bound is exact: one character more can be cut by the chunk that owns its midpoint |
| BaselineChunks.Analyze | src/pii_engine/services/analyzer.py:339-364 | The loop over languages and chunks keeps, language by language, exactly the findings of the specified chunks whose midpoint the chunk owns |
| BaselineChunks.KeptExactlyOnce | src/pii_engine/services/analyzer.py:352-364 | A short finding that every chunk seeing it whole reports once is kept exactly once |
| BaselineChunks.KeptOncePerLanguage | src/pii_engine/services/analyzer.py:345-363 | Over all languages, a short finding that each reports wherever it sees it whole is kept once per language |
| NerCache.FrameInjective | src/pii_engine/services/ner_cache.py:56-59 | Two framed messages are equal only when context and text both are |
| NerCache.NerWindowCache.Lookup | src/pii_engine/services/ner_cache.py:61-67 | Drops expired entries, then reads and refreshes exactly the entry of the key |
| NerCache.NerWindowCache.Store | src/pii_engine/services/ner_cache.py:73-86 | Stores nothing once stopped; otherwise inserts an absent result that fits, evicting least recently used entries |
| NerCache.NerWindowCache.Run | src/pii_engine/services/ner_cache.py:49-86 | One uninterrupted call returns what detection gives and keeps every entry truthful and within budget |
| NerCache.EvictsOldest | src/pii_engine/services/ner_cache.py:73-81 | Room is made by dropping least recently used entries one at a time, and no more of them than needed |
| NerCache.StoredIsLast | src/pii_engine/services/ner_cache.py:73-81 | An absent result that fits becomes the most recently used entry for one lifetime; a present or oversized one changes nothing but expiry |
| NerCache.ExpiryExact | src/pii_engine/services/ner_cache.py:88-98 | Expiry drops exactly the entries whose time has come |
| NerCache.CacheIsTransparent | src/pii_engine/services/ner_cache.py:49-86 | Under any interleaving of hits, misses, expiry, eviction, internal errors, close and start, a returning call gives what detection gives for exactly its context and text |
| NerCache.BytesWithinBudget | src/pii_engine/services/ner_cache.py:73-81 | Accounted bytes never exceed the budget |
| NerCache.NothingAfterClose | src/pii_engine/services/ner_cache.py:100-119 | After a close has cleared the cache nothing is retained until the next start |
| Traversal.ValidateStructure | src/pii_engine/services/traversal.py:201-251 | Within the container cap the stack walk accepts exactly values of admissible height and node count, depth failing first; beyond the cap nothing is accepted |
| Traversal.Visit | src/pii_engine/services/traversal.py:217-241 | Visiting a container moves its nodes, nested containers and reachable depth to the pending items and shrinks the work |
| Traversal.OrderIrrelevant | src/pii_engine/services/traversal.py:201-251 | Reordering children at every level of arrays and objects changes no verdict |
| Bundle.ParseChecksums | src/pii_engine/lib/bundle.py:109-128 | Accepts exactly the files whose lines are all records with safe paths and whose paths are neither repeated nor reserved |
| Bundle.LineRoundTrip | src/pii_engine/lib/bundle.py:116-122 | A line parses to a record exactly when it is that record written out: sixty-four hex digits, two spaces, a safe relative path |
| Bundle.SafePathExactly | src/pii_engine/lib/bundle.py:116-122 | A path is safe exactly when no piece between its slashes and ends is empty, a dot or two dots |
| Bundle.CheckBundle | src/pii_engine/lib/bundle.py:139-167 | The checks of file count, model paths, listed files, bytes in all and other files accept exactly a verified directory |
| Bundle.VerifiedExactly | src/pii_engine/lib/bundle.py:139-167 | A directory verifies exactly when nothing is wrong with it: count, unprotected models, missing or altered files, sizes, misplaced files |
| Bundle.CompleteExactly | src/pii_engine/lib/bundle.py:175-198 | A cache directory is complete exactly when its manifest has the pinned digest and expected version, its index has the size and digest the manifest gives and lists good records, nothing is wrong with its files, and its marker is the digest |
| Bundle.DigestPinsBundle | src/pii_engine/lib/bundle.py:175-198 | Without hash collisions two complete directories of one digest hold the same files with the same contents, so changing, adding or removing a file makes a complete directory incomplete |
| Bundle.MarkedIsComplete | src/pii_engine/lib/bundle.py:139-167 | A verified download plus its marker passes full revalidation as a cache directory |
| Bundle.CompletePartIsCore | src/pii_engine/lib/bundle.py:139-198 | At most one part of a directory can revalidate: the files its own index lists, with manifest, index and marker |
| Publish.ReferenceAlwaysValid | src/pii_engine/lib/bundle.py:276-322 | Through any run with a crash between any two steps the desired reference is absent or names a directory that fully revalidates |
| Publish.CompleteAtStartIsKept | src/pii_engine/lib/bundle.py:304-322 | No call alters or removes a directory that was complete when the call began |
| Publish.NeverAltered | src/pii_engine/lib/bundle.py:304-322 | No step of any run alters or removes a directory that is complete at that moment, if and only if the cache starts without a directory whose junk files alone keep it from being complete |
| Publish.HealthyStays | src/pii_engine/lib/bundle.py:304-322 | In a cache whose directories are all complete, as in one the job built itself, every directory is complete at every step and stays as it is |
| Publish.TransientlyComplete | src/pii_engine/lib/bundle.py:313-314 | One junk file beside a complete core is enough for a complete directory to be altered during its removal |
| ModelSync.ModelCache.AtomicPublish | src/pii_engine/lib/bundle.py:304-322 | Replaces a directory exactly when it is not complete, by the marked copy of the source |
| ModelSync.ModelCache.SelectDesired | src/pii_engine/lib/bundle.py:276-301 | Selects exactly a fully revalidated directory and otherwise leaves the reference alone |
| ModelSync.ModelCache.SyncBundle | src/pii_engine/jobs/model_sync.py:64-103 | Succeeds exactly when the directory is complete already, or the pinned manifest is offered and the directory is complete or the whole download verifies into its place; success selects a complete directory, failure leaves the reference, and complete directories are kept either way |

## Left out

- HTTP routing, TLS identity, logging and metrics: plumbing without a hard property.
- Recognizers, spaCy, transformers and regular-expression rules: detectors are arbitrary match lists.
- Extraction of segments from provider requests and rebuilding them: the model starts from segments.
- Field patterns and lengths of the response schema other than entity names in placeholders, reversal
  keys and values, counts and list sizes; text of notices beyond the ones the pipeline selects.
- The order of `applied_actions`: a set here, a sorted list in the original.
- Rolling hash windows and randomised encryption beyond being functions of leaf, region and text.
- The bounded lists of Studio diagnostics: only their region lookup is modelled, as
  `Prepare.UniqueRegion`.
- Readiness checks, session keys and placeholder namespaces: a request arrives with a valid key and nonce.
- Symbolic links in bundle directories: the job creates none, and a directory is a map from paths to
  contents.
- The temporary file behind the desired reference: selecting is the one atomic rename.
- Concurrent bundle publishers and outside edits while a call runs: the protocol has one writer.
- The request in the request-shaped response: present exactly when segments are, and an MCP call without
  text where there are no segments.
- BaselineChunks.Analyze: the removal of duplicates that follows belongs to Presidio and is not modelled.
- Bundle.ParseChecksums: decoding UTF-8 and splitting into lines is an arbitrary function.
- Planner.ActionPlanner.ValidateSpans: scores are real numbers, so the test for finite values has no counterpart.
- Admission.LiveThreadsBounded: event-loop shutdown, which may cancel any coroutine, is not modelled.
- Semaphores.WakeAllOk: futures are reduced to four roles of a waiting coroutine.
