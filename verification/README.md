# CareerGraph, verified

CareerGraph reads a user's resume, finds the skills it mentions, compares them with what jobs ask for, and
plans what to learn next over a graph of prerequisites. This project models the parts of it whose correctness
depends on reasoning across many calls, steps or rows, and proves what they promise:

* **The prerequisite graph.** The seed validator's three-colour depth-first search accepts an edge list exactly when it
  is usable and otherwise reports a genuine cycle. A learning plan lists exactly the unknown targets and their unknown
  ancestors, is the least topological order by (difficulty, name), is unique and independent of the order of the input
  lists, and following it and asking again yields the rest of it. The cheapest-chain query is a true minimum over all
  sources and routes, and where that differs from the least learning effort is settled. The drawn columns are
  longest-chain depths. (`CycleSearch`, `EdgeValidation`, `TopologicalSort`, `LearningPath`, `LearningPathLaws`,
  `PlanReading`, `PlanDetours`, `PrerequisiteChain`, `ChainEffort`, `SkillDepths`, on the theory in `Graphs`, `Sorting`
  and `Common`.)
* **The session protocol.** Rotating single-use refresh tokens with family revocation, in the scheme of section 4.14.2
  of RFC 9700, over whole runs of registrations, verifications, logins, rotations, logouts, password resets,
  deactivations and purges; and the browser's single-flight refresh interleaved with that server. (`SessionModel`,
  `SessionLaws`, `AccountLaws`, `PasswordLaws`, `MailedLinks`, `PurgeLaws`, `SessionServer`, `SessionClient`,
  `ClientTokens`, `SessionRefusals`.)
* **The resume pipeline.** Upload, at-least-once delivery, one worker that may crash between any two commits, retries
  and a sweeper. (`ResumeModel`, `ResumeLaws`, `ResumeOrigins`, `EmbeddingLaws`, `ResumeTasks`.)
* **The skill matcher.** Leftmost-longest guarded scanning, two passes, tallies and the report, and when the passes stay
  out of each other's way, under any case rules of the runtime. (`SkillMatching`, `SkillMatcher`, `SkillMatcherLaws`,
  `WordBoundaries`, `SkillPasses`.)
* **The rate limiter.** Two implementations of one fixed window, their traffic bound and their Retry-After.
  (`RateLimiter`.)
* **Scoring, ranking and profiles.** Cosine bounds, monotone scores, the recruiter's view agreeing with the candidate's,
  the upsert that leaves user decisions alone, and the text tidying before all of it. (`Scoring`, `ScoreLaws`,
  `Ranking`, `RankingReading`, `RankingLaws`, `SkillProfile`, `ProfileLaws`, `Normalise`, `NormaliseReading`, `Text`.)

Code that changes state in place is modelled by classes and loops, each method tied by its `ensures` to a function of
the old state; the laws are then lemmas about those functions and about the runs they generate. What such a function
writes is also said without it, in terms of the rows, steps, spans or characters a reader sees: `PlanReading`,
`PasswordLaws`, `ClientTokens`, `ResumeOrigins`, `WordBoundaries`, `ScoreLaws`, `RankingReading`, `ProfileLaws` and
`NormaliseReading`.

`dafny verify dfyconfig.toml` checks everything.

## Where the code and its own account differ

The model follows the code; each difference is a lemma, with an instance and the exact condition.

* A plan is said to put every skill after everything it depends on (`skill_graph.py`, lines 22-23). The sort runs on the
  missing skills only, so a dependency that passes only through a known skill does not count:
  `LearningPathLaws.DetourThroughAKnownSkill` has an instance. `PlanDetours.NoDetour` is the exact condition: with it
  every plan keeps the promise (`NoDetourKeepsTheOrder`), and without it some difficulties make every plan break it
  (`ADetourCanBreakTheOrder`).
* The same instance loses a step when the plan is asked for again half way. Here the exact condition is
  `LearningPathLaws.ServesATarget`: with it what is planned next is always the rest of the plan
  (`RecomputingYieldsTheSuffix`), and without it some difficulties make every plan drop a step
  (`AUselessStepCanVanish`). Knowing the prerequisites of all one knows suffices for both (`ClosedKnowledgeHasNoDetour`,
  `NoDetourServesTargets`).
* The purge is said to remove only rows that are rejected as expired before the reuse check (`maintenance.py`, lines
  38-42). `refresh` checks revocation first (`auth.py`, lines 429-435), so a purge changes the answer to the next
  refresh, from reuse to unknown, exactly for expired rows that were also revoked
  (`SessionLaws.PurgeChangesOnlyExpiredReplays`), and the session such a replay would have ended lives on
  (`PurgeLaws.APurgeCanSpareASession`). As long as no such token is presented, a run and the same run without its purges
  give the same answers (`PurgesGoUnnoticed`); whatever is presented, the run with purges accepts all that the other
  accepts (`PurgesOnlyEverSpare`).
* Retry-After is said to tell a client exactly when trying again will succeed (`rate_limit.py`, lines 42-44). The
  in-memory limiter rounds up, which leaves a gap after the window's end in which other hits on the key can use up the
  next window (`RateLimiter.AGapHitCanStealTheTurn`; `FirstHitAfterRetry` is the exact condition); a client alone on its
  key is served as told (`WaitingAsToldWorks`). Redis rounds to the nearest second, so there even a client alone on its
  key can be told to come back up to half a second too early (`RedisCanAdvertiseTooEarly`); `RedisWaitingExactlyAsTold`
  and, with other hits in between, `RedisFirstHitAfterRetry` are the exact conditions.
* Two windows are said to double the rate (`rate_limit.py`, lines 10-12). The tight bound over one window's length is
  one less, 2·limit − 1: `TrafficBound`, reached for every limit by `TrafficBoundIsReached`.
* A refused refresh is said to mean that the token is spent, expired or revoked, and the session over (`api.ts`, lines
  97-98). Over every interleaving the server refuses exactly when it would not accept the token, which for an active
  owner is exactly when it has expired (`SessionRefusals.RefusedExactlyWhenNotAcceptable`); and the session is over
  exactly when the token is no longer good, whatever its owner's standing (`RevivesExactlyWhenStillGood`). Two refusals
  are of the other kind, and the client forgets both tokens all the same: by the rate limiter
  (`TheLimiterEndsALiveSession`) and of an account that is deactivated for a while (`DeactivationEndsAGoodSession`).
* Longest-first is said to resolve substring collisions (`skill_matching.py`, lines 59-62). It does inside a pass; a
  text in which the two passes report overlapping spans exists exactly when a term of one collides with a term of the
  other, as `C` does with `C++` (`SkillPasses.PassesOverlapExactlyOnCollisions`, `CppIsReportedAsCToo`).
* A match of the pattern that ignores case is looked up by its lower-cased text (`skill_matching.py`, lines 100-103),
  which is said to work regardless of how it was capitalised. The two notions of case are different: in a text that
  spells "Rust" with a long s, which the pattern takes for an s, nothing is found (`SkillMatcherLaws.ALongSIsLost`).
  Every vocabulary is safe exactly when the case rules look up alike what matches a term
  (`NothingIsLostExactlyWhenKeysFollow`), as on ASCII text (`SimpleKeysFollow`); a given one is exactly when each
  spelling of its terms has an entry (`EverySpanHasAnEntryExactlyWhen`).
* Every job seeker is said to be ranked (`candidates.py`, line 59). The pool is cut to the newest `limit` accounts
  first: nobody with a skill and a score above zero is left without a line, whatever skills and resumes hold, exactly
  when the active job seekers fit the limit or the job has nothing to score by
  (`RankingLaws.NobodyIsOverlookedExactlyWhenTheyFit`, with `TheOlderSeekerIsOverlooked`; for the pool itself
  `Ranking.PoolHoldsEveryoneExactlyWhenTheyFit`).
* The recruiter's and the candidate's side are said never to disagree (`candidates.py`, lines 3-5), and a candidate
  without skills not to be scorable (`candidate.py`, line 94). The candidate's own query does score them, on similarity
  alone, and the ranking leaves them out: a pool member has a line exactly when they hold a skill and score above zero
  (`Ranking.HasLineExactlyWhenSkilledAndPositive`, with `RankingLaws.SimilarityAloneIsNotRanked`).
* For a job without recognised skills the semantic component is said to carry the score (`matching.py`, lines 88-90). It
  keeps its weight, so that full similarity earns 35 of 100 there: `Scoring.ResemblanceDoesNotCarryTheScore`, and
  `Scoring.FullScore` for the exact split.
* The guards of a parse are said to make a repeated run harmless (`tasks.py`, lines 48-54). A second delivery for a
  failed resume replaces the reason it failed for (lines 56-58; `ResumeLaws.ASecondDeliveryHidesTheReason`); the reason
  stays exactly for complete resumes and for those whose reason was the missing file (`SecondDeliveryIsHarmless`).
* The cheapest chain is said to be the one of least total learning effort (`skill_graph.py`, lines 202-204). The first
  skill of a chain is free also when it is an unknown root (`ChainEffort.AFreeRootMisleads`). If any ancestor of the
  target is known the claim holds (`KnownAncestorsAgree`); otherwise some difficulties on the same graph break it
  exactly when there are two roots to start from (`MisleadsExactlyWithTwoUnknownRoots`). The chain takes more than the
  least by no more than the difficulties differ, 4 as the database bounds them (`ChainIsNearlyLeast`).
* A verified address is said to show control of the mailbox (`auth.py`, lines 358-361), and is what a password login
  waits for (lines 337-341). Three calls verify an account, one of them without any mail (`admin.py`, lines 82-103), and
  none asks who chose the password: the right password opens a session of an active account exactly when Google has
  vouched for the mailbox, a link mailed to it was redeemed in time, or an operator marked the account
  (`AccountLaws.PasswordLoginFollowsProof`). An instance of each, with the password of whoever registered the address:
  `AnEarlierPasswordOutlivesTheProof`, `ClickingTheLinkOpensTheAccount`, `AnOperatorOpensTheAccount`.
* The sweeper's branch for stuck rows whose bytes are gone (`maintenance.py`, lines 96-104) is never taken:
  `ResumeLaws.SweptRowsStillHaveTheirBytes`.

## Model

| member | source | states |
|---|---|---|
| EdgeValidation.ValidateEdges | backend/app/data/skill_edges_seed.py:191-246 | Which check speaks first and exactly what its report lists; accepted if and only if no edge is unknown, a loop or repeated and the graph is acyclic; a reported cycle is a closed walk of edges with at least three entries, no node twice but its ends |
| EdgeValidation.UnknownSlugsAreEnds | backend/app/data/skill_edges_seed.py:196-203 | Reported as unknown is exactly what stands at an end of some edge and is not known |
| EdgeValidation.RepeatedEdgesStandTwice | backend/app/data/skill_edges_seed.py:208-214 | Reported as repeated is exactly what the list has at two places |
| EdgeValidation.LoopsAreReportedInPlace | backend/app/data/skill_edges_seed.py:204-207 | Every loop is reported as often as it is listed, in the order of the list |
| EdgeValidation.ReportsAreInOrder | backend/app/data/skill_edges_seed.py:208-214 | Edges are reported by their first ends and then their second, the alphabetically earlier first |
| CycleSearch.FindCycle | backend/app/data/skill_edges_seed.py:221-246 | The iterative search from every node reports nothing if and only if the graph is acyclic, and otherwise a genuine simple cycle |
| CycleSearch.Explore | backend/app/data/skill_edges_seed.py:227-246 | Terminates on every graph; finished nodes rank below all their children; on a grey child it stops with a genuine cycle |
| CycleSearch.CloseCycle | backend/app/data/skill_edges_seed.py:236-238 | Cutting the path at the grey child and repeating the child gives a cycle of the edges |
| CycleSearch.DescendSearching | backend/app/data/skill_edges_seed.py:239-242 | Entering a white child keeps: the path is the grey stack, joined edge by edge, and every child already passed is finished or next on the path |
| CycleSearch.FinishSearching | backend/app/data/skill_edges_seed.py:243-246 | Blackening a node with no child left keeps the same invariant and ranks the node below its children |
| CycleSearch.BuildAdjacency | backend/app/data/skill_edges_seed.py:217-219 | The adjacency lists hold exactly the given edges |
| LearningPath.BuildGraph | backend/app/services/skill_graph.py:100-131 | Built if and only if no edge dangles and the edges are acyclic, and then with exactly those nodes and edges; otherwise the first dangling edge, or the names along a genuine cycle |
| PlanReading.LastListedWins | backend/app/services/skill_graph.py:106-116 | Of skills listed with one id the graph has the last |
| PlanReading.CycleNamesGoRound | backend/app/services/skill_graph.py:124-131 | The names of a reported cycle are of distinct skills, each a prerequisite of the next and the last of the first |
| LearningPath.GraphIgnoresListOrder | backend/app/services/skill_graph.py:106-124 | The skill and edge lists may be permuted without changing the graph |
| LearningPath.Ancestors | backend/app/services/skill_graph.py:149-153 | Exactly the nodes with a walk to the target |
| LearningPath.CollectNeeded | backend/app/services/skill_graph.py:146-153 | The union over the targets is exactly the unknown targets and their unknown ancestors |
| LearningPath.ComputeLearningPath | backend/app/services/skill_graph.py:134-190 | The result is a plan for the request: greedy order of the needed skills, every step described, effort summed, unreachable ids sorted and complete |
| LearningPath.DescribeSteps | backend/app/services/skill_graph.py:167-189 | Steps in the given order, numbered from one, each described from its node, and their total difficulty |
| LearningPath.UnlockedBy | backend/app/services/skill_graph.py:171-173 | The names of the step's predecessors inside the plan, sorted |
| TopologicalSort.LexicographicalSort | backend/app/services/skill_graph.py:157-165 | Repeatedly taking the least unblocked node succeeds if and only if no cycle is left, and then lists every node |
| TopologicalSort.GreedyIsTopological | backend/app/services/skill_graph.py:22-23 | Such an order lists every node once with no edge pointing backwards |
| TopologicalSort.GreedyIsLeast | backend/app/services/skill_graph.py:33-34 | It is lexicographically least among all topological orders |
| TopologicalSort.GreedyUnique | backend/app/services/skill_graph.py:39-44 | Where the key separates nodes there is only one such order |
| TopologicalSort.GreedySuffix | backend/app/services/skill_graph.py:155-165 | Dropping the first k nodes from nodes and order leaves the greedy order of the rest |
| LearningPathLaws.PlanListsExactlyTheNeeded | backend/app/services/skill_graph.py:141-165 | The steps are exactly the unknown targets and their unknown ancestors, each once |
| LearningPathLaws.PrerequisitesComeFirst | backend/app/services/skill_graph.py:168-182 | Every direct prerequisite of a step is known, or an earlier step that the step names as unlocking it |
| LearningPathLaws.UnknownChainInOrder | backend/app/services/skill_graph.py:151-165 | A chain of unknown skills of any length is planned in its own order |
| LearningPathLaws.PlanIsLeast | backend/app/services/skill_graph.py:157-165 | No order respecting the prerequisites is smaller by (difficulty, name) |
| PlanReading.StepsComeInOrder | backend/app/services/skill_graph.py:161-165 | Of two steps of any plan, the later one needs a step not before the earlier one, or is harder, or equally hard with a name no earlier by code points; with equal names it has the later place in the graph |
| PlanReading.PlanReads | backend/app/services/skill_graph.py:143-190 | Steps are numbered from one, say whether they were asked for, and name their prerequisites in the plan alphabetically; the effort is the sum of their difficulties; unreachable is exactly what is required and not in the graph, alphabetically |
| Sorting.TextLeqMeans | backend/app/services/skill_graph.py:161-163 | Texts compare by code points: a prefix first, or the smaller character at the first difference |
| Sorting.SortKeepsEquals | backend/app/services/skill_graph.py:171-173 | Sorting is stable |
| LearningPathLaws.PlanIsUnique | backend/app/services/skill_graph.py:39-44 | With distinct names the request has one plan, whatever places nodes have in the graph |
| LearningPathLaws.PlanIgnoresListOrder | backend/app/services/skill_graph.py:157-160 | Permuting skills and edges leaves the whole plan unchanged |
| LearningPathLaws.RestIsStillNeeded | backend/app/services/skill_graph.py:141-153 | If every needed skill serves a target through needed skills, what is needed after learning the first k steps is what was needed minus those |
| LearningPathLaws.RecomputingYieldsTheSuffix | backend/app/services/skill_graph.py:141-190 | Under that condition, for every k, learning the first k steps and asking again yields exactly the remaining ids, and the condition, like prerequisite-closed knowledge, is kept |
| LearningPathLaws.KnowingMoreNeverCostsMore | backend/app/services/skill_graph.py:146-188 | For any known set, knowing more adds no step and never raises the effort |
| LearningPathLaws.DetourThroughAKnownSkill | backend/app/services/skill_graph.py:151-165 | An instance that breaks both promises: an ancestor is planned after its target, and drops out once the target is learnt |
| PlanDetours.NoDetourKeepsTheOrder | backend/app/services/skill_graph.py:22-23 | If needed skills that depend on each other do so through needed skills, every plan puts all ancestors first |
| PlanDetours.ADetourCanBreakTheOrder | backend/app/services/skill_graph.py:151-165 | Otherwise some difficulties on the same graph make every plan break that order |
| PlanDetours.AUselessStepCanVanish | backend/app/services/skill_graph.py:141-165 | Where a needed skill serves no target, some difficulties on the same graph make every plan lose steps: once all targets are learnt, every plan asked for again is empty and differs from the rest of the first |
| PlanDetours.NoDetourServesTargets | backend/app/services/skill_graph.py:146-153 | The condition for the order implies the condition for following the plan |
| PlanDetours.ClosedKnowledgeHasNoDetour | backend/app/services/skill_graph.py:146-153 | Prerequisite-closed knowledge meets the condition for every request |
| PrerequisiteChain.PrerequisiteChain | backend/app/services/skill_graph.py:193-238 | The names along a cheapest route over all sources and all routes, where a route costs the difficulties of all its skills but the first; the bare target if there is none, nothing for an unknown target |
| PrerequisiteChain.FindEntryPoints | backend/app/services/skill_graph.py:208-213 | The known ancestors, or if there are none the roots among the ancestors |
| PrerequisiteChain.CheapestFrom | backend/app/services/skill_graph.py:220-238 | The best over the sources, visited in any order, is a cheapest route from any of them |
| PrerequisiteChain.SingleSourceDijkstra | backend/app/services/skill_graph.py:217-226 | A route if and only if one exists, of minimal cost, with that cost |
| PrerequisiteChain.NearestIsSettled | backend/app/services/skill_graph.py:224-226 | Dijkstra's greedy step: the cheapest fringe node's label is its true distance |
| PrerequisiteChain.NoEntryPointsMeansNoAncestors | backend/app/services/skill_graph.py:211-215 | In an acyclic graph there are no sources if and only if the target has no ancestor, and from every source a route exists |
| PrerequisiteChain.ChainIsARoute | backend/app/services/skill_graph.py:232-238 | So with any ancestor the answer is a real route, and the last fallback is never reached |
| PrerequisiteChain.ChainAvoidsKnownSkills | backend/app/services/skill_graph.py:209-226 | With difficulties of at least one, the best chain meets no known skill strictly between its ends |
| ChainEffort.KnownAncestorsAgree | backend/app/services/skill_graph.py:202-211 | If any ancestor of the target is known, no chain from an entry point takes less to learn than a cheapest one |
| ChainEffort.MisleadsExactlyWithTwoUnknownRoots | backend/app/services/skill_graph.py:202-217 | Some difficulties on the same graph make a cheapest chain take more to learn than another if and only if no ancestor is known and there are two roots to start from |
| ChainEffort.ChainIsNearlyLeast | backend/app/services/skill_graph.py:202-217 | A cheapest chain never takes more over the least than the spread of the difficulties |
| ChainEffort.AFreeRootMisleads | backend/app/services/skill_graph.py:202-217 | An instance: the only cheapest chain takes 6 to learn where another takes 3 |
| SkillDepths.ComputeDepths | frontend/src/components/SkillGraph.tsx:47-76 | Terminates on every graph; on an acyclic one every skill gets the length of the longest chain ending at it |
| SkillDepths.DepthSearch.DepthOf | frontend/src/components/SkillGraph.tsx:58-72 | Keeps the nodes being visited and all memoised depths, and on an acyclic graph memoises the true depth |
| SkillDepths.DepthSearch.DeepestParent | frontend/src/components/SkillGraph.tsx:67 | One more than the deepest parent is the true depth |
| SkillDepths.ListPrerequisites | frontend/src/components/SkillGraph.tsx:48-53 | The lists hold exactly the given edges |
| SkillDepths.EdgesGoDeeper | frontend/src/components/SkillGraph.tsx:40-46 | Every edge leads to a strictly greater depth |
| SkillDepths.SomeParentIsOneShallower | frontend/src/components/SkillGraph.tsx:40-46 | A node's depth is set by its deepest prerequisite, one column before it |
| SkillDepths.FirstColumnNeedsNothing | frontend/src/components/SkillGraph.tsx:58-72 | No depth is negative, and it is zero exactly for skills without prerequisites |
| SessionServer.AuthService.Refresh | backend/app/services/auth.py:409-446 | The new tables and the answer are those of the protocol's rotation step, reuse before expiry; like every method of the service it keeps one chain and owner per family and one account per address and subject |
| SessionServer.AuthService.Logout | backend/app/services/auth.py:452-464 | The whole family is revoked; an unknown token changes nothing |
| SessionServer.AuthService.Login | backend/app/services/auth.py:314-350 | A session opens only for the right password of an active, verified account, in the order of checks, and an outdated hash is renewed |
| SessionServer.AuthService.AuthenticateWithGoogle | backend/app/services/auth.py:372-403 | Found by subject, or by address and then linked, or created; marked verified when Google says so; a session opens unless the account is inactive, and then nothing is kept |
| SessionServer.AuthService.RequestPasswordReset | backend/app/services/auth.py:246-274 | Earlier links of the user are used up and one new link is stored; nothing for accounts without a password |
| SessionServer.AuthService.RedeemPasswordReset | backend/app/services/auth.py:284-308 | A usable link is spent, the password replaced and every live token of the user revoked; any other link changes nothing, and is answered as unknown, used or expired |
| SessionServer.AuthService.Register | backend/app/services/auth.py:126-166 | A taken address is refused; otherwise a new unverified account with the password's hash and its first link |
| SessionServer.AuthService.VerifyEmail | backend/app/services/auth.py:174-198 | A usable link is spent and its account verified; any other changes nothing, and is answered as unknown, used or expired |
| SessionServer.AuthService.ResendVerification | backend/app/services/auth.py:200-218 | Earlier links of an unverified account are used up and a new one is stored; nothing for any other address |
| SessionServer.AuthService.MarkVerified | backend/app/services/admin.py:82-103 | A known account becomes verified, without any link |
| SessionServer.AuthService.IssueTokens | backend/app/services/auth.py:470-491 | One new row in the family, linked from its predecessor |
| SessionServer.AuthService.RevokeFamilyRows | backend/app/repositories/refresh_token.py:29-46 | Exactly the live rows of the family get the time; earlier times stay |
| SessionServer.AuthService.RevokeAllRowsOfUser | backend/app/repositories/refresh_token.py:48-64 | Exactly the live rows of the user get the time |
| SessionServer.AuthService.PurgeExpiredRefreshTokens | backend/app/workers/maintenance.py:34-53 | Exactly the expired rows go, links to them become null, and the count is returned |
| AccountLaws.StepKeepsAccountsUnique | backend/app/services/auth.py:141-155 | No service call, registration included, makes two accounts share an address or a Google subject |
| AccountLaws.GoogleSignsInToTheOneAccount | backend/app/services/auth.py:372-403 | The session belongs to the account that had the subject, else the address, else to a new one without a password; no existing password and no other account changes |
| AccountLaws.LoginKeepsPasswords | backend/app/services/auth.py:343-346 | Renewing a hash never changes which passwords are accepted, and leaves it current |
| PasswordLaws.LoginAnswers | backend/app/services/auth.py:314-350 | Which of the four answers a login gets, exactly: wrong password before inactive before unverified; nothing changes unless it succeeds |
| PasswordLaws.ResetReplacesThePassword | backend/app/services/auth.py:284-308 | A redeemed reset gives the owner of the link the new password and no other, with current parameters; no other column and no other account changes |
| PasswordLaws.RefusedResetChangesNothing | backend/app/services/auth.py:292-298 | A reset that is not redeemed changes nothing |
| PasswordLaws.PasswordIsTheLastOneSet | backend/app/services/auth.py:284-308 | Over every run, an account has exactly the password of its last registration or redeemed reset, and its first one if there was none |
| PasswordLaws.EarlierPasswordsAreShutOut | backend/app/services/auth.py:314-333 | From a registration or redeemed reset until the next, every login with another password is refused, and with that one is not |
| PasswordLaws.GoogleAnswers | backend/app/services/auth.py:372-403 | Refused exactly for an inactive account, and then nothing is kept; a new account has the address, the subject and no password |
| PasswordLaws.RefreshAnswers | backend/app/services/auth.py:409-446 | Which of the four answers a refresh gets, exactly, in the order of the checks |
| PasswordLaws.RotationReads | backend/app/services/auth.py:443-491 | Rotation stamps and links the spent token, adds one of the same session with a whole lifetime, and touches no other row |
| PasswordLaws.OpeningReads | backend/app/services/auth.py:470-491 | A session opens with one row of a whole lifetime, and nothing else changes |
| PasswordLaws.RevocationReads | backend/app/repositories/refresh_token.py:29-64 | Revoking a family or a user stamps exactly their live rows with the time |
| PasswordLaws.PurgeReads | backend/app/workers/maintenance.py:38-47 | Exactly the rows past their expiry go, and exactly the links to them are cut |
| PasswordLaws.LinkAnswers | backend/app/services/auth.py:59-87 | A link is unknown, used, expired or good, exactly and in that order |
| PasswordLaws.AskingForAReset | backend/app/services/auth.py:246-274 | An account with a password gets a new link that is good for exactly the lifetime, and its earlier ones are used up; otherwise nothing changes |
| PasswordLaws.AskingForAnotherLink | backend/app/services/auth.py:200-231 | The same for an account that is not verified |
| PasswordLaws.Registering | backend/app/services/auth.py:126-166 | A free address opens one active, unverified account with that password and no other, and one link good for exactly the lifetime |
| PasswordLaws.OperatorsChangeOneColumn | backend/app/services/admin.py:41-103 | Marking and (de)activating change one column of one account |
| AccountLaws.OnlyProofVerifies | backend/app/services/auth.py:174-198 | One call verifies an account, old or new, if and only if it is a Google sign-in that vouches for its mailbox, the redeeming of a usable link of its own, or an operator's mark |
| AccountLaws.VerifiedExactlyWhenProven | backend/app/services/auth.py:194-195 | Over every run an account is verified at the end if and only if it was at the start or one of the three happened in between, also for accounts opened in between |
| AccountLaws.PasswordLoginFollowsProof | backend/app/services/auth.py:337-341 | For an active account that was not verified, or not there, the right password later opens a session if and only if one of the three happened in between, and is otherwise told to verify |
| AccountLaws.AnEarlierPasswordOutlivesTheProof | backend/app/services/auth.py:374-396 | A run: an address is registered with a password, the owner of the mailbox signs in with Google, and then that password opens sessions |
| AccountLaws.ClickingTheLinkOpensTheAccount | backend/app/services/auth.py:126-198 | A run: the same after the link that the registration sent is clicked |
| AccountLaws.AnOperatorOpensTheAccount | backend/app/services/admin.py:82-103 | A run: the same after an operator's mark, with no mail read by anybody |
| MailedLinks.StepKeepsLinks | backend/app/services/auth.py:200-218 | Every call keeps: links belong to accounts, and of an account's verification links, like its reset links, at most one is unused |
| MailedLinks.OnlyOneLinkWorks | backend/app/repositories/email_verification_token.py:23-29 | In every state of a run at most one verification link and at most one reset link of an account can be redeemed |
| MailedLinks.SpentLinkNeverWorks | backend/app/models/email_verification_token.py:38-47 | A link redeemed, or replaced by a newer one, is answered as used at every later state of any run |
| SessionLaws.AcceptsIffRotates | backend/app/services/auth.py:426-446 | A token is acceptable if and only if presenting it rotates |
| SessionLaws.StepKeepsInv | backend/app/services/auth.py:443-491 | Every service call keeps: one owner per family, and each family's surviving rows one acyclic replaced-by chain whose non-last rows are revoked |
| SessionLaws.EveryFamilyIsOneChain | backend/app/models/refresh_token.py:49-54 | In every reachable state, purged or not, a family's rows form one such chain |
| SessionLaws.FamilyHasOneOwnerAndOneLiveToken | backend/app/models/refresh_token.py:38-42 | Tokens of one family belong to one user, and at most one is unrevoked |
| SessionLaws.OnlyTheLastCanBeAccepted | backend/app/models/refresh_token.py:56-64 | The acceptable token of a family is the end of its chain |
| SessionLaws.RotatedIsNeverAcceptedAgain | backend/app/services/auth.py:443-446 | Single use: once rotated, never acceptable at any later time of any run |
| SessionLaws.SpentForever | backend/app/services/auth.py:429-446 | What is revoked or purged stays unacceptable over whole runs |
| SessionLaws.DeadForever | backend/app/services/auth.py:429-464 | A family without a live token never gets one |
| SessionLaws.EndedSessionStaysEnded | backend/app/services/auth.py:429-464 | After a logout or a replay, no token of the family, old or found later, is ever acceptable |
| SessionLaws.ResetEndsEverySession | backend/app/services/auth.py:284-308 | After a password reset no token issued to that user before it is ever acceptable |
| SessionLaws.ResetEndsEveryFamily | backend/app/services/auth.py:305 | Nor can any earlier session be continued by rotation |
| SessionLaws.EndingOneSessionSparesOthers | backend/app/repositories/refresh_token.py:29-46 | Logout and replay leave tokens of every other family and all accounts as they were |
| SessionLaws.DoubleSpendKillsTheFamily | backend/app/services/auth.py:415-432 | Presenting a token twice answers reuse and leaves the family, successor included, dead |
| SessionLaws.PurgeKeepsAcceptance | backend/app/workers/maintenance.py:38-47 | The purge changes no token's acceptability at any later time |
| SessionLaws.PurgeTakesAPrefix | backend/app/models/refresh_token.py:49-54 | The purge removes a prefix of each chain and cuts no surviving link |
| SessionLaws.PurgeChangesOnlyExpiredReplays | backend/app/services/auth.py:429-435 | Presented right after a purge, a token gets another answer exactly when its row was expired and revoked |
| PurgeLaws.PurgesGoUnnoticed | backend/app/workers/maintenance.py:38-42 | Unless a token revoked and past its expiry is presented, a run and the same run without its purges answer every call alike and differ only in expired rows |
| PurgeLaws.MirrorAnswersRefresh | backend/app/services/auth.py:426-446 | Between two such states a refresh is answered alike if and only if the presented row was not purged or had not been revoked |
| PurgeLaws.PurgesOnlyEverSpare | backend/app/workers/maintenance.py:38-47 | Over any run, whatever is presented, all that would be accepted without the purges is accepted with them |
| PurgeLaws.APurgeCanSpareASession | backend/app/services/auth.py:429-432 | A reachable run in which the session a replay should have ended survives because of a purge |
| SessionClient.InterleavingStaysGood | frontend/src/lib/api.ts:86-152 | Every interleaving of any number of calls keeps single flight and the current token at the head of the family |
| SessionClient.AtMostOneRefreshOutstanding | frontend/src/lib/api.ts:111-116 | At no time are two refresh requests outstanding |
| SessionClient.ClientNeverTripsReuseDetection | frontend/src/lib/api.ts:4-15 | No refresh the client sends reaches the reuse branch |
| SessionClient.StoredTokenIsTheHead | frontend/src/lib/api.ts:103-108 | With no refresh in flight the stored token, if its row exists, is the unrevoked end of the family's chain |
| SessionClient.LiveSessionRefreshes | frontend/src/lib/api.ts:86-108 | While the session is live on the server, every refresh the server handles is granted |
| SessionClient.BeingTurnedAwayEndsTheSession | frontend/src/lib/api.ts:96-101 | In every good state with a live session, a refusal by the rate limiter clears both tokens and the server would still accept the one presented |
| SessionRefusals.RefusedExactlyWhenNotAcceptable | frontend/src/lib/api.ts:96-101 | Over every interleaving, a handled refresh is refused if and only if the server does not accept the token, that is, the session is not live: for a good token if and only if its owner is not active, for an active owner's if and only if it has expired |
| SessionRefusals.EveryRefusalClears | frontend/src/lib/api.ts:96-101 | Whoever refused, both tokens are forgotten |
| SessionRefusals.SentStandsForTheSession | backend/app/services/auth.py:426-446 | The token a refresh presents is acceptable if and only if any token of the session is |
| SessionRefusals.OverForGood | backend/app/services/auth.py:429-446 | Once every token of a family is revoked or expired, it is so after any further calls |
| SessionRefusals.RevivesExactlyWhenStillGood | backend/app/services/auth.py:426-446 | Some further run makes the session behind a token live again if and only if the token is neither revoked nor expired nor purged, its owner active or not |
| SessionRefusals.TheLimiterEndsALiveSession | frontend/src/lib/api.ts:96-101 | A whole interleaving in which a page forgets a session that is live throughout |
| SessionRefusals.DeactivationEndsAGoodSession | frontend/src/lib/api.ts:96-101 | A whole interleaving in which a page forgets a session that is live again once the account is re-activated |
| SessionClient.WithoutTheGuardTheSessionDies | frontend/src/lib/api.ts:8-11 | Two calls presenting the same token end the session |
| SessionClient.ApiClient.ApiFetch | frontend/src/lib/api.ts:124-140 | A call is sent with the current access token, or none if anonymous |
| SessionClient.ApiClient.RefreshOnceFor | frontend/src/lib/api.ts:111-116 | The first caller starts a refresh, every other one awaits the same; like the other steps it keeps single flight |
| SessionClient.ApiClient.RefreshAccessToken | frontend/src/lib/api.ts:86-94 | The stored token is the one presented; with none stored the run returns at once |
| SessionClient.ApiClient.OnHeaders | frontend/src/lib/api.ts:96-101 | A refusal clears both tokens |
| SessionClient.ApiClient.OnBody | frontend/src/lib/api.ts:103-108 | Both tokens of the pair are stored |
| SessionClient.ApiClient.OnFinally | frontend/src/lib/api.ts:112-114 | The guard is released and waiters may resume |
| SessionClient.ApiClient.OnResume | frontend/src/lib/api.ts:144-147 | A waiter retries once with the new token, or gives up |
| SessionClient.ApiClient.Clear | frontend/src/lib/api.ts:57-60 | Both tokens are forgotten and nothing else changes |
| ClientTokens.AccessGoesWithStored | frontend/src/lib/api.ts:38-60 | Over every interleaving the access token in use is that of the stored pair |
| ClientTokens.CallsCarryTheCurrentToken | frontend/src/lib/api.ts:124-140 | A new call carries the access token of the moment, an anonymous one none |
| ClientTokens.RetriesCarryAFreshToken | frontend/src/lib/api.ts:142-152 | A retried call carries a token that the server handed out earlier in the interleaving, in answer to a refresh of this page |
| ClientTokens.GrantedPairIsUsed | frontend/src/lib/api.ts:96-116 | Once a granted refresh is read both tokens of its pair are in use and whoever waited retries with it |
| ClientTokens.RefusedWaitersGiveUp | frontend/src/lib/api.ts:96-116 | Once a refusal is in both tokens are forgotten and whoever waited gives up |
| ClientTokens.TurnedAwayCallsWait | frontend/src/lib/api.ts:86-116 | A call turned away joins the refresh in flight, or starts one with the stored token |
| ResumeTasks.Backend.Upload | backend/app/services/resume.py:45-98 | Which check rejects, in order; otherwise one pending row with its bytes and one parse message |
| ResumeTasks.Backend.ParseResume | backend/app/workers/tasks.py:44-145 | The two transactions and the messages sent, for every way extraction can end; the skills found are recorded with the text, or not at all |
| ResumeTasks.Backend.FailRow | backend/app/workers/tasks.py:36-41 | Failed, with the message cut to the column and the bytes dropped |
| ResumeTasks.Backend.EmbedResume | backend/app/workers/tasks.py:162-205 | An embedding is written only where text exists and none was there; a retry re-enqueues |
| ResumeTasks.Backend.RequeueStuckResumes | backend/app/workers/maintenance.py:79-110 | One parse message for each stuck row with bytes, failure for each without, everything else untouched, and the count |
| ResumeLaws.StepKeepsGood | backend/app/workers/tasks.py:44-205 | Every atomic step, crashes and duplicate deliveries included, keeps all the invariants below |
| ResumeLaws.RunStaysGood | backend/app/workers/tasks.py:44-205 | They hold in every reachable state |
| ResumeLaws.RowsAreAlwaysWellFormed | backend/app/workers/tasks.py:36-126 | Bytes exactly while pending or processing; complete means text that is not blank and no error; an embedding only when complete |
| ResumeLaws.NeverMoreThanThreeUnfinished | backend/app/services/resume.py:75-76 | No user ever has more than three unfinished resumes |
| ResumeOrigins.UploadsReachThree | backend/app/services/resume.py:75-76 | A user with at most two unfinished resumes, and no other, may upload another |
| ResumeLaws.OutcomesAreFinal | backend/app/workers/tasks.py:50-53 | Complete is never left and keeps its text, failed is never left, an embedding is never replaced |
| ResumeLaws.WorkIsNeverLostSilently | backend/app/workers/maintenance.py:60-69 | An unfinished resume has a request about to enqueue it, a message queued or in flight, or was stranded by a death or an escaped exception |
| ResumeLaws.SweepLosesNothing | backend/app/workers/maintenance.py:79-110 | When a sweep commits, every unfinished resume older than its cutoff has a parse message queued |
| ResumeLaws.SweptRowsStillHaveTheirBytes | backend/app/workers/maintenance.py:94-104 | The branch that fails rows without bytes is never taken |
| ResumeLaws.ParsingFinishesTheResume | backend/app/workers/tasks.py:72-126 | Delivery for an unfinished resume parses its bytes, and every end but a retry or an escape finishes it |
| ResumeLaws.SecondDeliveryIsHarmless | backend/app/workers/tasks.py:48-58 | A delivery after the end parses nothing and changes no outcome; the reason of a failure stays if and only if the resume is complete or the reason was the missing file |
| ResumeLaws.ASecondDeliveryHidesTheReason | backend/app/workers/tasks.py:56-58 | An instance: a password-protected PDF ends up as a file that is no longer available |
| ResumeLaws.CompleteTextIsTidy | backend/app/services/extraction.py:67-126 | In every reachable state the text of a complete resume is tidy, and tidying it changes nothing |
| ResumeOrigins.ContentsHaveTheirOrigin | backend/app/workers/tasks.py:44-205 | In every reachable state a row belongs to who uploaded it, its bytes are the uploaded ones, its text is what a parse of it extracted, its vector what the model made of it |
| ResumeOrigins.ParsesReadTheUpload | backend/app/workers/tasks.py:64-86 | What a parse reads are the bytes uploaded for that resume |
| ResumeOrigins.DeliveryReads | backend/app/workers/tasks.py:60-80 | What delivery makes of a missing, complete, emptied or waiting row, field by field |
| ResumeOrigins.EndReads | backend/app/workers/tasks.py:84-126 | Which fields the end of a parse writes, and which message each failure records |
| ResumeOrigins.FailingReads | backend/app/workers/tasks.py:32-41 | The recorded message is the whole one, or its first 500 characters |
| ResumeOrigins.EmbeddingReads | backend/app/workers/tasks.py:162-205 | The model's vector is stored exactly where there is text and no vector |
| ResumeOrigins.SweepReads | backend/app/workers/maintenance.py:79-104 | Taken by the sweep is exactly what is pending or processing and older than the cutoff; what failing such a row writes |
| EmbeddingLaws.PendingUnlessDropped | backend/app/workers/tasks.py:135-162 | Over every run, a parsed resume without a vector has its embedding queued, under way or about to be asked for if and only if no crash or skip dropped the request; once dropped nothing asks again |
| EmbeddingLaws.PendingFollows | backend/app/workers/tasks.py:144-205 | Which single steps drop it: a crash after the parse committed, a crash of the embedding task, an end without vector or retry |
| EmbeddingLaws.EmbedsAreAlwaysForParsed | backend/app/workers/tasks.py:135-145 | An embedding is only ever asked for a parsed resume |
| SkillMatching.PatternFor | backend/app/services/skill_matching.py:56-69 | Exactly the given terms, longest first |
| SkillMatching.FirstBranch | backend/app/services/skill_matching.py:59-69 | The first branch that matches at a position is a longest guarded term there |
| SkillMatching.FindIter | backend/app/services/skill_matching.py:133-143 | Under any case rules: ordered disjoint guarded spans, each longest at its start, and every guarded occurrence of any term begins inside one |
| SkillMatching.ScanIsUnique | backend/app/services/skill_matching.py:56-69 | That determines the spans: they depend on the set of terms alone, up to the case rules of the pass |
| SkillMatcher.SkillMatcher.Build | backend/app/services/skill_matching.py:85-110 | Each table maps exactly the claimed keys, each to its last claimant; each pattern holds exactly the cleaned terms, longest first |
| SkillMatcher.AddTerms | backend/app/services/skill_matching.py:91-103 | One entry's cleaned terms take over their keys; blank ones are skipped |
| SkillMatcher.RecordTallies | backend/app/services/skill_matching.py:124-131 | Recording one more mention keeps, per skill: first entry seen, set of texts, number of mentions |
| SkillMatcher.SkillMatcher.RunPass | backend/app/services/skill_matching.py:133-143 | A pass records one mention for each span of the scan that has an entry, under the last entry to claim its key, and passes the others over |
| SkillMatcher.ReportHits | backend/app/services/skill_matching.py:145-156 | One line per mentioned skill with its sorted texts and count, most mentioned first, then by name |
| SkillMatcher.SkillMatcher.Find | backend/app/services/skill_matching.py:112-156 | The report of exactly the mentions of both passes |
| SkillMatcherLaws.OccurrencesAddUp | backend/app/services/skill_matching.py:124-156 | The counts sum to the number of spans, of both passes, that have an entry |
| SkillMatcherLaws.EverySpanHasAnEntryExactlyWhen | backend/app/services/skill_matching.py:100-143 | A pass over any text reports only spans with an entry if and only if each spelling that matches a term is looked up by what some term is looked up by |
| SkillMatcherLaws.NothingIsLostExactlyWhenKeysFollow | backend/app/services/skill_matching.py:100-143 | That holds for every vocabulary if and only if the case rules look up alike whatever matches a possible term |
| SkillMatcherLaws.SimpleKeysFollow | backend/app/services/skill_matching.py:95-103 | Matching strings are looked up alike in the exact-case pass, and in the other one on ASCII text |
| SkillMatcherLaws.ALongSIsLost | backend/app/services/skill_matching.py:112-156 | An instance: with the long s matching an s, the only report on Rust spelt with one is empty |
| SkillMatcherLaws.FindIgnoresVocabularyOrder | backend/app/services/skill_matching.py:113-117 | On a conflict-free vocabulary the report does not depend on its order |
| WordBoundaries.PassesReportWholeWords | backend/app/services/skill_matching.py:48-69 | In the exact-case pass, and in the other one on ASCII case rules: no letter, digit or underscore, by code point, stands beside a reported span; and wherever a term stands alone a reported span covers its first character |
| WordBoundaries.ReportedSpansStandAlone | backend/app/services/skill_matching.py:48-69 | A reported span spells a term of the pass, exactly or up to the case of ASCII letters, and stands alone |
| WordBoundaries.StandingAloneIsReported | backend/app/services/skill_matching.py:48-69 | Conversely, a term that stands alone starts inside a reported span, no shorter than the term if it starts with it |
| WordBoundaries.KeysOfEitherCase | backend/app/services/skill_matching.py:95-103 | Two spellings are looked up alike exactly if they are equal, or equal up to the case of ASCII letters |
| WordBoundaries.NoGoInGoogle | backend/app/services/skill_matching.py:48-53 | An instance: with the exact-case term Go the only report on Google is empty |
| WordBoundaries.TheLastListedWins | backend/app/services/skill_matching.py:91-103 | A mention is of the last entry of its pass that lists a term with the same key |
| WordBoundaries.ReportReads | backend/app/services/skill_matching.py:124-156 | A line says at how many places its skill is mentioned and in exactly which texts, alphabetically, under the name of its first mention; more often mentioned skills come first, then alphabetically |
| SkillPasses.PassesOverlapExactlyOnCollisions | backend/app/services/skill_matching.py:59-69 | Under any case rules, in some text the two passes of a vocabulary report overlapping spans if and only if a term of one collides with a term of the other, that is, fits one of finitely many alignments |
| SkillPasses.OverlapAligns | backend/app/services/skill_matching.py:50-53 | Overlapping guarded occurrences in any text are one of these alignments |
| SkillPasses.TogetherOverlaps | backend/app/services/skill_matching.py:133-143 | Conversely the shortest text that holds an alignment makes every pair of scans overlap |
| SkillPasses.ScanExists | backend/app/services/skill_matching.py:133-143 | Every text has a scan for every set of terms |
| SkillPasses.TheExactCasePassFindsCInsideCpp | backend/app/services/skill_matching.py:133-143 | The scans of both passes over the text C++ |
| SkillPasses.CAndCppCollide | backend/app/services/skill_matching.py:50-69 | An instance: with C++ and C in the vocabulary the passes overlap in some text |
| SkillPasses.CppIsReportedAsCToo | backend/app/services/skill_matching.py:112-156 | With C and C++ in the vocabulary the only report on the text C++ has a line for each |
| RateLimiter.InMemoryRateLimiter.Hit | backend/app/core/rate_limit.py:75-91 | The key's window and the decision are those of the window step; other keys stay |
| RateLimiter.RedisRateLimiter.Hit | backend/app/core/rate_limit.py:121-141 | The key's counter, expiry and the decision, with a failure possible at each command; other keys stay |
| RateLimiter.VerdictReads | backend/app/core/rate_limit.py:75-91 | What a hit does to the window, when it is allowed, and that a rejection advertises a time after the window's end by at most a second |
| RateLimiter.RedisVerdictReads | backend/app/core/rate_limit.py:121-141 | The same for Redis without failures, with the seconds left rounded to the nearest and at least one |
| RateLimiter.FaultsRead | backend/app/core/rate_limit.py:97-141 | What each failure leaves in the store, and that it lets the hit through |
| RateLimiter.TrafficBound | backend/app/core/rate_limit.py:8-14 | Over any trace, any half-open stretch of one window's length allows at most 2·limit − 1 hits on a key |
| RateLimiter.TrafficBoundIsReached | backend/app/core/rate_limit.py:10-12 | For every limit and window a trace reaches that number |
| RateLimiter.FirstHitAfterRetry | backend/app/core/rate_limit.py:86-90 | The first hit at or after the advertised time is allowed if and only if fewer than limit hits fell into the rounding gap, or a window has passed since the first of them |
| RateLimiter.WaitingAsToldWorks | backend/app/core/rate_limit.py:86-90 | With the in-memory limiter a client alone on its key that waits as told is served |
| RateLimiter.AGapHitCanStealTheTurn | backend/app/core/rate_limit.py:86-90 | An instance where a hit in the gap takes the turn |
| RateLimiter.RedisFirstHitAfterRetry | backend/app/core/rate_limit.py:132-139 | With Redis, after any hits in between, a hit at or after the advertised time is allowed if and only if the hits since the expiry left room or their window is over, and without such hits the expiry has come |
| RateLimiter.RedisWaitingExactlyAsTold | backend/app/core/rate_limit.py:42-44 | With Redis a client alone on its key that returns exactly as told is served if and only if at most a second was left, or whole seconds, or a rest rounded up; half a second later it always is |
| RateLimiter.RedisCanAdvertiseTooEarly | backend/app/core/rate_limit.py:132-139 | A reachable instance where it is not |
| RateLimiter.KeysAreIndependent | backend/app/core/rate_limit.py:73-84 | A key's window after any trace depends on that key's hits alone |
| RateLimiter.DecisionDependsOnOwnKey | backend/app/core/rate_limit.py:73-91 | So does every decision |
| RateLimiter.MixedTrafficBound | backend/app/core/rate_limit.py:8-14 | The bound holds for each key of any trace over all keys |
| RateLimiter.RedisAllowsTheSameHits | backend/app/core/rate_limit.py:95-139 | Without failures both limiters allow exactly the same hits of every trace |
| RateLimiter.FailureNeverRejects | backend/app/core/rate_limit.py:97-101 | A rejection means the counter really exceeded the limit |
| RateLimiter.RejectionHealsTheCounter | backend/app/core/rate_limit.py:132-139 | From any state a rejection leaves an expiry behind, and the first hit at or after it is allowed |
| Scoring.CauchySchwarz | backend/app/services/embedding.py:136-138 | The squared sum of products is at most the product of the sums of squares, for vectors of any length |
| Scoring.CosineIsBounded | backend/app/services/embedding.py:125-143 | Cosine similarity is between −1 and 1 |
| Scoring.CosineWithItself | backend/app/services/embedding.py:139-143 | It is 1 for a vector with itself, 0 for the zero vector |
| ScoreLaws.CosineTimesNorms | backend/app/services/embedding.py:136-143 | Similarity times both norms is the sum of the products, and zero if a vector is zero |
| ScoreLaws.DotIsASum | backend/app/services/embedding.py:136 | The sum of the products grows by the last pair's product |
| Scoring.ComputeSkillCoverage | backend/app/services/matching.py:78-106 | Coverage is the held share of the importances, and the lists are the sorted selections |
| Scoring.CoverageSplitsTheRequirements | backend/app/services/matching.py:92-106 | Matched and missing split the required list as a multiset by what is held, each sorted by importance, then name |
| ScoreLaws.CoverageIsAShare | backend/app/services/matching.py:98-100 | Coverage times the summed importances of all that is required is the summed importances of the matched list; matched and missing importances add up to the required |
| ScoreLaws.ListsRead | backend/app/services/matching.py:92-106 | The matched list has exactly the required skills that are held, the missing one the others, each the more important first and then alphabetically |
| Scoring.CoverageGrows | backend/app/services/matching.py:98-100 | Coverage stays in [0, 1] and never falls when skills are gained |
| Scoring.GainingSkillsNeverLowersTheScore | backend/app/services/matching.py:121-138 | The score stays in [0, 100] and never falls when skills are gained |
| Scoring.FullScore | backend/app/services/matching.py:88-138 | Every skill held, with no similarity or a full one, misses nothing and scores 100 if the requirements weigh anything, and otherwise 35 or nothing |
| Scoring.ResemblanceDoesNotCarryTheScore | backend/app/services/matching.py:88-91 | An instance: no required skills and full similarity score 35 |
| Scoring.ScoreWithoutSkills | backend/app/services/matching.py:123-130 | No skill held matches nothing and scores 0, or 35 percent of the clamped similarity |
| Scoring.SimilarityCorroborates | backend/app/services/matching.py:126-130 | More similarity never lowers the score, and a negative one counts as zero |
| ScoreLaws.ScoreReads | backend/app/services/matching.py:121-138 | The score is 100 times that share without a similarity, and 65 times the share plus 35 times the clamped similarity with one; both fractions are the share and the clamped similarity, rounded |
| ScoreLaws.HalfIsFifty | backend/app/services/matching.py:98-138 | An instance: one of two equally important skills scores 50 |
| Ranking.GroupSkills | backend/app/repositories/candidate.py:63-75 | Each user of the pool gets exactly their held skills |
| Ranking.NewestEmbeddings | backend/app/repositories/candidate.py:77-92 | Each user of the pool gets the vector of their newest embedded resume, or none |
| Ranking.LoadCandidateProfiles | backend/app/repositories/candidate.py:39-95 | Every pool member with a held skill, once, and nobody else, each as the per-user queries see them |
| Ranking.ScoreProfiles | backend/app/services/candidates.py:86-114 | A line for exactly the profiles scoring above zero, none twice |
| Ranking.RankForJob | backend/app/services/candidates.py:55-117 | Hidden and foreign jobs are refused; otherwise at most limit lines, scores not increasing, each the true positive score of a pool member with a held skill, no user twice and no such member left out |
| Ranking.PoolListsUsersOnce | backend/app/repositories/candidate.py:48-61 | The pool inherits the uniqueness of user ids |
| Ranking.RecruiterAgreesWithCandidate | backend/app/services/candidates.py:3-5 | For every line the recruiter sees, the candidate's own query gives the same score and gap lists |
| RankingReading.ListReads | backend/app/services/candidates.py:86-117 | Scores do not increase; every line bears id and name of a pool member with a confirmed or suggested skill, and the positive score of exactly those skills and of a newest complete resume's vector |
| RankingReading.PoolReads | backend/app/repositories/candidate.py:48-55 | The pool holds active job seekers only, newest first, at most limit |
| RankingReading.OutsideThePool | backend/app/repositories/candidate.py:48-55 | Whoever is left out finds the pool full of accounts at least as new |
| RankingReading.OwnScoreReads | backend/app/services/match.py:42-74 | The candidate's own query answers nothing exactly for somebody else's private job |
| Ranking.HasLineExactlyWhenSkilledAndPositive | backend/app/repositories/candidate.py:94-95 | A pool member has a line if and only if their own score is above zero and they hold a skill |
| Ranking.PoolHoldsEveryoneExactlyWhenTheyFit | backend/app/repositories/candidate.py:48-55 | Every active job seeker is in the pool if and only if there are no more of them than limit |
| Ranking.NobodyOutsideThePoolIsRanked | backend/app/services/candidates.py:58-59 | An account outside the pool has no line, whatever it scores |
| RankingLaws.SimilarityAloneIsNotRanked | backend/app/repositories/candidate.py:94-95 | An instance: a seeker without skills scores 35 by their own account and every ranking is empty |
| RankingLaws.RankingExists | backend/app/services/candidates.py:55-117 | Every database, job and limit has a ranking, so that the laws above speak of something |
| RankingLaws.NobodyIsOverlookedExactlyWhenTheyFit | backend/app/services/candidates.py:58-59 | Whatever skills and resumes these users have, every seeker with a skill and a score above zero has a line in every ranking, if and only if there are no more active job seekers than limit, or the job has neither requirements that weigh nor an embedding to resemble |
| RankingLaws.TheOlderSeekerIsOverlooked | backend/app/repositories/candidate.py:48-55 | An instance: asked for one line, a recruiter is not shown the only seeker with the skill |
| SkillProfile.UpsertByRow | backend/app/repositories/skill.py:146-163 | The statement acts on each row alone: no row becomes a suggestion, a suggestion gets its count, a decision stays, other users' rows stay |
| SkillProfile.FilteringFirstChangesNothing | backend/app/workers/tasks.py:220-252 | The worker's pre-filtered statement and the repository's unfiltered one leave the same table |
| SkillProfile.UpsertIsIdempotent | backend/app/repositories/skill.py:136-142 | Extracting the same document twice is extracting it once |
| ProfileLaws.UploadsRead | backend/app/repositories/skill.py:133-163 | For each mentioned skill: a new suggestion with the count, a suggestion with the new count, or an untouched decision; counts stop at 32767 |
| ProfileLaws.UploadsLeaveTheRest | backend/app/repositories/skill.py:133-163 | Rows of other users and of skills not mentioned stay |
| ProfileLaws.RowsAreTheUsersOwn | backend/app/repositories/skill.py:133-163 | Over every interleaving, a row of a user with no event of their own stays exactly as it is, and none appears |
| SkillProfile.DecisionsStand | backend/app/repositories/skill.py:133-163 | Over every interleaving of uploads and edits, a confirmed, rejected or learning row stays as it is until the user names that skill |
| SkillProfile.TheUserHasTheLastWord | backend/app/services/skill_profile.py:60-142 | Adding a skill makes it held, learning it does not, a status update decides it, and no other row's standing changes |
| SkillProfile.ConfirmingAllChangesNothingHeld | backend/app/services/skill_profile.py:156-169 | Bulk confirmation leaves no suggestion and changes nobody's held skills |
| ProfileLaws.ConfirmingReads | backend/app/services/skill_profile.py:156-169 | Bulk confirmation changes exactly the caller's suggestions, and of them the status alone |
| ProfileLaws.ConfirmingSparesOthers | backend/app/services/skill_profile.py:163-167 | An instance: one user's bulk confirmation leaves another's suggestion |
| ProfileLaws.EditsRead | backend/app/services/skill_profile.py:60-142 | What adding, learning and updating write, field by field, and that every other row stays |
| SkillProfile.RejectedStaysUnheld | backend/app/workers/tasks.py:220-228 | A rejected skill is not held until the user acts |
| SkillProfile.HeldStaysHeld | backend/app/models/user_skill.py:39-48 | Uploads and bulk confirmation only ever add to what is held |
| SkillProfile.ProfileStore.UpsertExtracted | backend/app/repositories/skill.py:133-167 | The table becomes the result of the statement |
| SkillProfile.ProfileStore.ExtractSkills | backend/app/workers/tasks.py:216-253 | The table becomes that of the unfiltered statement; returned is the number of rows sent |
| SkillProfile.ProfileStore.StartLearning | backend/app/services/skill_profile.py:60-89 | A known skill becomes a learning row, new or in place; an unknown one changes nothing |
| SkillProfile.ProfileStore.AddSkill | backend/app/services/skill_profile.py:91-121 | Confirmed and manual, an existing proficiency kept unless one is given |
| SkillProfile.ProfileStore.UpdateSkill | backend/app/services/skill_profile.py:123-142 | Only the given fields of an existing row change |
| SkillProfile.ProfileStore.ConfirmAllSuggestions | backend/app/services/skill_profile.py:156-169 | Exactly the user's suggestions become confirmed, and their number is returned |
| Normalise.NormalisedIsTidy | backend/app/services/extraction.py:56-64 | The result has no carriage return, non-breaking space or soft hyphen, no two blanks in a row, no blank before a newline, no three newlines, no white space at either end |
| Normalise.FixedExactlyWhenTidy | backend/app/services/extraction.py:56-64 | A text is left unchanged if and only if it is tidy in that sense |
| Normalise.NormaliseIsIdempotent | backend/app/services/extraction.py:56-64 | Tidying twice is tidying once |
| Normalise.LayoutIsKept | backend/app/services/extraction.py:27-32 | Every visible character, word boundary, line break between words and paragraph break is kept |
| Normalise.InkIsKept | backend/app/services/extraction.py:56-64 | Every character that is neither white space nor a soft hyphen is kept, once and in order, and none is added |
| NormaliseReading.LineEndsRead | backend/app/services/extraction.py:58 | A carriage return with its newline is one line end wherever it stands, and one without is another |
| NormaliseReading.CharactersRead | backend/app/services/extraction.py:60 | A non-breaking space becomes a space, a soft hyphen goes, everything else stands |
| NormaliseReading.RunsBecomeOneSpace | backend/app/services/extraction.py:61 | Two or more blanks in a row become one space wherever they stand |
| Text.StripTakesTheEnds | backend/app/services/extraction.py:64 | Stripping takes white space off both ends and nothing else |
| Text.WhiteSpaceByCode | backend/app/services/extraction.py:64 | White space is exactly these code points |

## Left out

- NetworkX itself is not part of this model: its acyclicity test, ancestor search, lexicographic topological sort and
  Dijkstra are written from the module's own account, with the heap as a set searched for its minimum and the final
  tie-break (a node's place in the graph) as an arbitrary map.
- PrerequisiteChain.SingleSourceDijkstra: assumes difficulties are not negative, as the database guarantees.
- The graph is a value rather than a mutable object; the loops that fill it are in `LearningPath.BuildGraph`.
- SkillDepths.ComputeDepths: on a cyclic graph only termination is claimed; the depths drawn there mean nothing.
- Tokens, their hashes and their rows are one fresh identifier each, and a password is verified by equality; hashing,
  signing and Google's verification are abstract.
- Addresses are compared as the services do after normalising them; the normalising itself, a strip and a lower-casing,
  is left out, and the identity in a Google token is an argument.
- Sending the mails, and the roles and names of accounts: a link is one fresh identifier, known to whoever presents it.
- Database isolation below one committed service call: each call is one atomic step.
- Deleting a user and all their rows is not a step of the session runs.
- Several browser tabs, and refresh responses that never arrive: outside the single-flight guard's reach. A refusal by
  the rate limiter is the move `ServerTurnsRefreshAway`.
- Worker concurrency: tasks run one at a time, as configured by `celery_concurrency` in `backend/app/core/config.py`,
  line 108.
- Text extraction, the embedding model and `self.retry` are outcomes chosen by the environment; PDF and DOCX parsing and
  file-name cleaning are left out.
- Embedding a job, and a SQL failure inside skill extraction that aborts the surrounding transaction.
- RateLimiter.RedisHit: takes a key to be gone at its expiry time; the time left is a real number, rounded to the
  nearest second when asked for.
- The case tables of the language's runtime are not part of this model: which characters match, which the word class
  then covers and how a string is lower-cased are arguments, and the laws hold for all of them. A character matches by
  having the same representative as another, so that no character matches a longer string, as in that runtime's
  patterns.
- Floating-point rounding: arithmetic is over the reals, the square root is a function with its defining property, and
  Python's `round` is any monotone function that fixes the ends of its scale.
- Scoring.CosineIsBounded: vectors of different lengths, where the original raises, give no similarity here; the column
  type fixes the length.
- Ranking.RecruiterAgreesWithCandidate: assumes that no two embedded resumes of one user have the same creation time;
  the queries leave the order of such rows open.
- SkillProfile.ProfileStore.UpsertExtracted: takes a list that names each skill once, because PostgreSQL refuses a
  statement that would touch a row twice and the matcher reports each skill once.
- The order of lines with equal scores, and of rows with equal creation times.
- Goals, administration beyond marking and deactivating accounts, job visibility rules beyond the ranking's, routes,
  schemas, email, health probes, pages and the demo seeder: each is settled by reading one branch.
