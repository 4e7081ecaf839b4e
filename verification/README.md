# Verified models of the Polimec pallets

A Dafny model of the stateful cores of the Polimec runtime pallets, with machine-checked proofs of
what they guarantee in every reachable state and along every run:

- **Democracy.** Votes, delegations, vote locks, referendum scheduling, thresholds, and the deposits
  behind public proposals. Tallies and delegation counters are caches updated piecewise; the model
  recomputes them as sums over all accounts and shows that every call keeps the caches equal to the
  sums.
- **Elections.** Members, runners-up and candidates with their candidacy bonds, the prime, and the
  membership reports.
- **Linear release.** Vesting schedules released against a hold: vesting, removing, merging and
  transferring.
- **Auction.** The bucket ladder, the weighted average price computed by walking it down, bids and
  quotes that walk it up, and the search for schedules that can be merged.

Each pallet comes in two layers. Storage is a datatype and every call a function on it; the theorems
are lemmas about those functions and about all sequences of calls. Beside them, a class holds the
storage as fields, its methods do the work with the loops, searches and in-place updates of the
original, and their postconditions tie them to the functions. Each class has an invariant, the one
proved of every reachable state, and its calls state what they guarantee under it.

| files | subject |
|---|---|
| `Arithmetic`, `Totals` | products and quotients, saturating arithmetic, sums over storage maps |
| `DemocracyTypes`, `DemocracyVoting`, `DemocracyVotingInvariant` | votes, delegations, locks and the invariant of one call |
| `VoteThreshold` | comparing ratios, thresholds |
| `DemocracyQueue` | public proposals and their deposits |
| `Democracy`, `DemocracyRuns`, `DemocracyTheorems` | the state machine, its invariant on every run, the main theorems |
| `VotingRecords`, `DemocracyPallet`, `DemocracyCalls` | the sorted vote vector, the pallet as a class, its calls in a sound state |
| `VestingSchedule`, `LinearRelease`, `LinearReleaseTheorems`, `LinearReleasePallet` | schedules, merging, holds, the class |
| `Auction`, `AuctionHouse`, `MergeCandidates` | buckets, average price, bids and quotes, merge candidates |
| `Elections`, `ElectionsTheorems`, `ElectionsRuns`, `ElectionsPallet` | seats and bonds, elections, runs, the class |

Assumptions that the model makes explicit:

- Balances are 128-bit and block numbers 32-bit unsigned. Where the original saturates, so does the
  model. Run theorems of the democracy pallet assume `RunInRange`: six times all committed capital
  is a balance, and block numbers stay below the largest one. The run theorems of linear release
  assume that holds stay below the largest balance less the largest block number.
- A failing dispatchable changes nothing. The currency is a map of freezes and a map of holds that
  only the modelled calls change. Whether an account can afford a hold or a transfer, its total
  balance, the total issuance and the permission of an origin are parameters of the calls.
- `FixedU128` is a natural number of 10^-18 units whose products, quotients and reciprocals round
  down and saturate.
- `seq_phragmen` is a parameter with a contract: an error, or at most as many winners as asked for,
  distinct, and all from the list given. The receiver of membership changes clears its prime on
  every report.

Where the code departs from its documentation, or from what one would expect, the model follows the code:

- `merge_schedules` documents that the merged schedule ends at the later of the two ends. It ends
  there if and only if the remaining blocks divide the locked total, and may last almost twice as
  long otherwise (`MergedEnd`, `MergedEndCanOvershoot`).
- `MaxCandidates` is documented as the limit after which no more candidates are accepted. One more
  is accepted (`SubmitAcceptedIff`, `OneCandidateTooMany`).
- With `MaxDeposits` of zero a proposal holds a deposit that is never recorded, so the ledger stays
  exact if and only if the limit is positive or nothing is held (`ProposeExactIff`).
- The weighted average price can exceed the current price when the US dollars raised saturate
  (`WapIsWeightedAverage`, `WapCanExceedPrice`).
- A nay vote can pass a failing super-majority referendum and an aye vote can sink a
  default-carries one, exactly when they raise the root of the turnout far enough (`NaysCarryIff`,
  `AyesSinkIff`).

## Model

| member | source | states |
|---|---|---|
| `DemocracyVoting.CapitalExchange` | pallets/democracy/src/lib.rs:1310-1331 | capital received by a set of accounts, summed over the receivers, is the capital of those delegating to any of them: no delegation is counted at two receivers |
| `DemocracyVoting.TurnoutBounded` | pallets/democracy/src/types.rs:80-98 | the recomputed turnout of a referendum is at most the sum of what every account has locked, delegates of delegates included |
| `DemocracyVoting.VotesBounded` | pallets/democracy/src/conviction.rs:95-101 | recomputed ayes and nays are at most six times the recomputed turnout |
| `DemocracyTypes.ConvictionAddsVotes` | pallets/democracy/src/conviction.rs:95-101 | the weakest lock gives one vote per unit and every next conviction exactly one more; without a lock ten units give one vote, rounded down |
| `DemocracyTypes.VotesByRank` | pallets/democracy/src/conviction.rs:48-58 | a locked vote of rank k is worth k times its capital, or the largest balance |
| `DemocracyTypes.RanksCount` | pallets/democracy/src/conviction.rs:48-58 | ranks count the steps from no conviction |
| `DemocracyTypes.ConvictionDoublesLock` | pallets/democracy/src/conviction.rs:82-92 | no lock lasts no period, the weakest one, and every next conviction twice as long |
| `DemocracyTypes.CastAddsWorth` | pallets/democracy/src/types.rs:80-98 | casting a vote, if it succeeds, adds exactly its conviction-weighted worth and the delegations behind it to the tally |
| `DemocracyTypes.UncastRemovesWorth` | pallets/democracy/src/types.rs:102-141 | removing a vote undoes exactly what casting it added |
| `DemocracyVotingInvariant.VoteAccepted` | pallets/democracy/src/lib.rs:1232-1267 | a direct vote that can be funded is accepted, neither arithmetic error occurs, and the stored tally becomes the one recomputed over all accounts |
| `DemocracyVotingInvariant.VoteAcceptedIff` | pallets/democracy/src/lib.rs:1232-1267 | a vote that can be funded is accepted if and only if the referendum is ongoing, the balance is there, the account votes directly, and there is room or an earlier vote to replace |
| `DemocracyVotingInvariant.VoteMovesByRank` | pallets/democracy/src/lib.rs:1254-1258 | an accepted vote with nothing behind it, on a referendum not voted on before, adds its rank times its balance to its side, a tenth if unlocked, nothing to the other, and its balance to the turnout |
| `DemocracyVotingInvariant.VoteNeverUnderflows` | pallets/democracy/src/lib.rs:1239-1243 | the underflow error of re-voting is unreachable for every vote, funded or not |
| `DemocracyVotingInvariant.VoteKeepsInvariant` | pallets/democracy/src/lib.rs:1232-1267 | voting and re-voting keep all tallies, delegation counters, records and freezes exact |
| `DemocracyVotingInvariant.RemoveVoteNeverUnderflows` | pallets/democracy/src/lib.rs:1274-1307 | the underflow error of removing a vote is unreachable |
| `DemocracyVotingInvariant.RemoveVoteAcceptedIff` | pallets/democracy/src/lib.rs:1274-1307 | the owner can always remove a vote, anyone else if and only if it no longer counts and no longer locks |
| `DemocracyVotingInvariant.UnlockBlockIs` | pallets/democracy/src/lib.rs:1291-1297 | a lock ends at its start plus the locking period times its periods, or at the last block |
| `DemocracyVotingInvariant.RemoveVoteKeepsInvariant` | pallets/democracy/src/lib.rs:1274-1307 | removing a vote, before or after the referendum, keeps everything exact |
| `DemocracyVotingInvariant.EntrustedDelegations` | pallets/democracy/src/lib.rs:1310-1331 | starting a delegation keeps every account's delegation counter equal to the sum over its delegators, without saturation |
| `DemocracyVotingInvariant.EntrustedTally` | pallets/democracy/src/lib.rs:1310-1331 | starting a delegation adds exactly its votes and capital to the side the target is on |
| `DemocracyVotingInvariant.RecalledDelegations` | pallets/democracy/src/lib.rs:1334-1355 | ending a delegation keeps every counter exact and clamps nowhere |
| `DemocracyVotingInvariant.RecalledTally` | pallets/democracy/src/lib.rs:1334-1355 | ending a delegation takes exactly its votes and capital out again |
| `DemocracyVotingInvariant.RedelegateSplits` | pallets/democracy/src/lib.rs:1360-1404 | re-delegating is undelegating and then delegating |
| `DemocracyVotingInvariant.DelegateKeepsInvariant` | pallets/democracy/src/lib.rs:1360-1404 | delegating and re-delegating keep everything exact |
| `DemocracyVotingInvariant.DelegateAcceptedIff` | pallets/democracy/src/lib.rs:1360-1372 | delegating is refused exactly to oneself, beyond the balance, or with votes standing |
| `DemocracyVotingInvariant.UndelegateKeepsInvariant` | pallets/democracy/src/lib.rs:1407-1428 | undelegating keeps everything exact |
| `DemocracyVotingInvariant.UnlockKeepsInvariant` | pallets/democracy/src/lib.rs:1432-1442 | unlocking never freezes more than before and freezes exactly what votes, delegation and unexpired locks need |
| `DemocracyRuns.ReachableInvariant` | pallets/democracy/src/lib.rs:1232-1602 | every state reachable from genesis by any calls has exact tallies, exact delegation counters, freezes covering every lock, exact deposits, and no ongoing referendum below `LowestUnbaked` or past its end |
| `DemocracyRuns.StepKeepsInvariant` | pallets/democracy/src/lib.rs:1232-1602 | each single call keeps that invariant |
| `DemocracyTheorems.NoCapitalCountsTwice` | pallets/democracy/src/lib.rs:1261-1331 | in every reachable state an ongoing tally is the recomputed one, its turnout is at most all frozen capital, and its votes are at most six per unit of turnout |
| `DemocracyTheorems.ReduceNeverClamps` | pallets/democracy/src/types.rs:134-141 | no saturating subtraction of a recalled delegation clamps, neither in the counter nor in any tally |
| `DemocracyTheorems.VoteThenRemoveRestores` | pallets/democracy/src/lib.rs:1232-1307 | voting and removing the vote restores every tally and the voter's record |
| `DemocracyTheorems.DelegateThenUndelegateRestores` | pallets/democracy/src/lib.rs:1360-1428 | delegating and undelegating restores every tally and every record but for the lock left on the delegator |
| `DemocracyTheorems.WinningVoteStaysFrozen` | pallets/democracy/src/lib.rs:1289-1299 | over any run, a winning standard vote keeps its balance frozen until the end of the referendum plus the locking period times its lock periods, unless the finished referendum is cancelled while the vote is still stored |
| `DemocracyTheorems.EndedDelegationStaysFrozen` | pallets/democracy/src/lib.rs:1412-1419 | over any run, an ended delegation keeps its balance frozen for the locking period times its lock periods |
| `DemocracyTheorems.ReplacedDelegationStaysFrozen` | pallets/democracy/src/lib.rs:1379-1397 | so does a delegation that is replaced by another |
| `DemocracyTheorems.ExpiredVoteReleases` | pallets/democracy/src/lib.rs:1288-1304 | from the end of the lock on, and at once for a vote that lost, anyone can remove the vote and unlocking frees an account with nothing else at stake |
| `DemocracyTheorems.ExpiredDelegationReleases` | pallets/democracy/src/lib.rs:1412-1442 | likewise for an ended delegation |
| `DemocracyTheorems.CancellationReleases` | pallets/democracy/src/lib.rs:840-847 | the exception is real: cancelling a finished referendum lets a winner with nothing else at stake out at once |
| `DemocracyTheorems.ReferendaFinishOnTime` | pallets/democracy/src/lib.rs:1556-1602 | along any run a referendum that no call cancels is ongoing with its end before that end and finished at exactly that end from then on; it is gone only if some call cancelled it |
| `DemocracyTheorems.OnlyCancellationRemoves` | pallets/democracy/src/lib.rs:1206-1211 | no modelled call but `cancel_referendum` and a blacklisting that names the referendum ever removes one |
| `DemocracyRuns.PartialScanIsFullScan` | pallets/democracy/src/lib.rs:1174-1187 | scanning from `LowestUnbaked` to the old count bakes what scanning all referenda would bake |
| `DemocracyRuns.BeginBlockExact` | pallets/democracy/src/lib.rs:1556-1602 | a block bakes exactly the referenda ending in it, by their threshold, changes no other, and leaves `LowestUnbaked` at the count or at an ongoing referendum |
| `DemocracyRuns.InjectLaunches` | pallets/democracy/src/lib.rs:1445-1458 | a launched referendum is new, ends later than now and starts with the empty tally, which is exact |
| `DemocracyRuns.LaunchPublicExact` | pallets/democracy/src/lib.rs:1489-1516 | tabling takes a proposal of highest backing and no other, always finds its deposit, refunds it, and launches it for the voting period under a super majority |
| `DemocracyRuns.LaunchExternalExact` | pallets/democracy/src/lib.rs:1471-1486 | tabling an external proposal succeeds exactly when one waits; it becomes the newest referendum with its own threshold and lasts the voting period |
| `DemocracyRuns.LaunchNextLaunches` | pallets/democracy/src/lib.rs:1461-1468 | launching adds at most one referendum, ending later, and keeps every invariant of an opening block |
| `DemocracyRuns.TablingAlternates` | pallets/democracy/src/lib.rs:1461-1468 | with both kinds waiting, external and public proposals are tabled in turn |
| `DemocracyRuns.BlockTablesIff` | pallets/democracy/src/lib.rs:1565-1573 | a block launches a referendum, and then one, if and only if its number is a multiple of the launch period and something waits |
| `DemocracyRuns.ExternalProposeWaits` | pallets/democracy/src/lib.rs:698-748 | an external proposal is refused only if it needs a super majority and another waits or it is blacklisted; otherwise it is the one waiting |
| `DemocracyRuns.FastTrackLaunchesIff` | pallets/democracy/src/lib.rs:764-802 | the waiting proposal is launched for the period asked for if and only if it is the one named, needs no super majority, and origin and period allow it |
| `DemocracyRuns.ClearLeavesDeposits` | pallets/democracy/src/lib.rs:915-919 | clearing empties the queue and leaves every deposit and hold in place |
| `VoteThreshold.CompareRationals` | pallets/democracy/src/vote_threshold.rs:41-71 | the loop ends for all positive denominators and decides the comparison of the cross products |
| `VoteThreshold.ComputeApproved` | pallets/democracy/src/vote_threshold.rs:84-97 | the verdict is the threshold inequality between votes and integer square roots of turnout and electorate |
| `VoteThreshold.ThresholdsOrdered` | pallets/democracy/src/vote_threshold.rs:84-97 | passing a super majority implies passing a simple majority implies default carrying |
| `VoteThreshold.AyesHelp` | pallets/democracy/src/vote_threshold.rs:84-97 | an additional aye never un-passes the first two thresholds |
| `VoteThreshold.NaysNeverCarry` | pallets/democracy/src/vote_threshold.rs:84-97 | an additional nay never passes a failing default-carries referendum |
| `VoteThreshold.NaysCarryIff` | pallets/democracy/src/vote_threshold.rs:84-97 | what adds no ayes carries a failing super majority if and only if the root of the turnout rises, weighted with the ayes, by more than the deficit and the added nays weigh |
| `VoteThreshold.AyesSinkIff` | pallets/democracy/src/vote_threshold.rs:84-97 | what adds no nays sinks a passing default-carries referendum if and only if the root of the turnout rises, weighted with the nays, by at least the lead and the added ayes weigh |
| `VoteThreshold.MonotoneWhileRootStays` | pallets/democracy/src/vote_threshold.rs:84-97 | neither happens while the root of the turnout does not move |
| `VoteThreshold.VotesHelpWhileRootStays` | pallets/democracy/src/vote_threshold.rs:84-97 | so no standard vote, with whatever stands behind it, then works against its own side |
| `VoteThreshold.NayCanCarrySuperMajority` | pallets/democracy/src/vote_threshold.rs:84-97 | an input on which a nay does carry a failing super majority |
| `VoteThreshold.AyeCanSinkDefault` | pallets/democracy/src/vote_threshold.rs:84-97 | an input on which an aye does sink a passing default-carries referendum |
| `DemocracyQueue.ProposeExactIff` | pallets/democracy/src/lib.rs:597-630 | proposing keeps every hold equal to the recorded deposits if and only if depositors can be recorded or nothing is held |
| `DemocracyQueue.ProposeKeepsInvariant` | pallets/democracy/src/lib.rs:597-630 | proposing keeps the deposit ledger exact and every queued proposal backed |
| `DemocracyQueue.SecondKeepsInvariant` | pallets/democracy/src/lib.rs:636-648 | seconding keeps the ledger exact and every queued proposal backed |
| `DemocracyQueue.CancelKeepsInvariant` | pallets/democracy/src/lib.rs:1068-1080 | cancelling slashes exactly the recorded deposits and keeps the ledger exact |
| `DemocracyQueue.BlacklistKeepsInvariant` | pallets/democracy/src/lib.rs:1016-1053 | blacklisting slashes exactly the recorded deposits and keeps the ledger exact |
| `DemocracyQueue.BlacklistExact` | pallets/democracy/src/lib.rs:1016-1042 | the first matching proposal and no other leaves the queue, its deposit slashed by appearances; no matching external proposal waits, and the proposal cannot be made again |
| `DemocracyQueue.LowerAllExact` | pallets/democracy/src/lib.rs:1028-1038 | lowering the holds of all depositors in turn takes from each account its number of entries times the deposit and clamps nowhere |
| `DemocracyQueue.LedgerByMultiplicity` | pallets/democracy/src/lib.rs:597-648 | an exact ledger means that every hold is the sum over all deposit entries of the deposit times the number of times the account appears |
| `DemocracyQueue.ShareCounts` | pallets/democracy/src/lib.rs:636-648 | what an account owes to one entry is the deposit times its appearances in it |
| `VotingRecords.BinarySearch` | pallets/democracy/src/lib.rs:1238-1250 | bisection of a sorted vote vector finds the vote, or the place that keeps the vector sorted |
| `VotingRecords.InsertIsUpdate` | pallets/democracy/src/lib.rs:1245-1250 | inserting at that place is updating the map from referendum to vote |
| `VotingRecords.RemoveIsDelete` | pallets/democracy/src/lib.rs:1274-1307 | removing an entry is deleting the key |
| `VotingRecords.LockedBalance` | pallets/democracy/src/vote.rs:183-189 | folding over the vector yields the largest vote balance or the remembered lock, whichever is larger |
| `DemocracyPallet.Pallet.constructor` | pallets/democracy/src/lib.rs:443-447 | fresh storage is the genesis state |
| `DemocracyPallet.Pallet.TryVote` | pallets/democracy/src/lib.rs:1232-1267 | storage after the call, or the error with storage unchanged, is that of the voting step |
| `DemocracyPallet.Pallet.TryRemoveVote` | pallets/democracy/src/lib.rs:1274-1307 | likewise for removing a vote, with its error cases and the lock left behind |
| `DemocracyPallet.Pallet.IncreaseUpstreamDelegation` | pallets/democracy/src/lib.rs:1310-1331 | the loop over the target's votes increases exactly the tallies of its standard votes on ongoing referenda |
| `DemocracyPallet.Pallet.ReduceUpstreamDelegation` | pallets/democracy/src/lib.rs:1334-1355 | the loop over the target's votes reduces exactly those tallies |
| `DemocracyPallet.Pallet.TryDelegate` | pallets/democracy/src/lib.rs:1360-1404 | storage after the call, or the error, is that of the delegation step |
| `DemocracyPallet.Pallet.TryUndelegate` | pallets/democracy/src/lib.rs:1407-1428 | storage after the call, or the error, is that of the undelegation step |
| `DemocracyPallet.Pallet.UpdateLock` | pallets/democracy/src/lib.rs:1432-1442 | storage after the call is that of the unlocking step |
| `DemocracyPallet.Pallet.CancelProposal` | pallets/democracy/src/lib.rs:1068-1080 | storage after the call is that of the cancelling step |
| `DemocracyPallet.Pallet.Blacklist` | pallets/democracy/src/lib.rs:1016-1053 | storage after the call is that of the blacklisting step |
| `DemocracyPallet.Pallet.LaunchPublic` | pallets/democracy/src/lib.rs:1489-1516 | the search for the best backed proposal and the launch are those of the launching step |
| `DemocracyPallet.Pallet.BeginBlock` | pallets/democracy/src/lib.rs:1556-1602 | launching, the partial scan, baking one by one and advancing `LowestUnbaked` together are the block step |
| `DemocracyCalls.Propose` | pallets/democracy/src/lib.rs:597-630 | soundness is kept; accepted exactly with enough deposit, room, funds and no bar; the proposal is then queued last under a new index, backed by its deposit, which is on hold; nobody else's hold moves |
| `DemocracyCalls.Second` | pallets/democracy/src/lib.rs:636-648 | soundness is kept; accepted exactly with a deposit entry, room and funds; one appearance, one deposit on hold and as much backing are added |
| `DemocracyCalls.CancelProposal` | pallets/democracy/src/lib.rs:1068-1080 | soundness is kept; the proposal is off the queue and every hold has fallen by the deposit times the account's appearances |
| `DemocracyCalls.Blacklist` | pallets/democracy/src/lib.rs:1016-1053 | soundness is kept; the proposal is barred from queue, external slot and later proposals, its deposit slashed, and a matching ongoing referendum that is named is gone |
| `DemocracyCalls.Vote` | pallets/democracy/src/lib.rs:659-666 | no underflow; with representable capital the state stays sound and the stored tally is the recomputed one; the freeze becomes the larger of itself and the balance, nobody else's moves |
| `DemocracyCalls.RemoveVote` | pallets/democracy/src/lib.rs:965-998 | done exactly for one's own vote or one that no longer counts or locks; no underflow and no freeze moved; with representable capital the state stays sound |
| `DemocracyCalls.Delegate` | pallets/democracy/src/lib.rs:873-884 | accepted exactly to someone else, within the balance and without votes; the freeze is extended to the balance; with representable capital the state stays sound and the target's counter is the sum over its delegators |
| `DemocracyCalls.Undelegate` | pallets/democracy/src/lib.rs:902-906 | succeeds exactly for delegators; with representable capital the state stays sound |
| `DemocracyCalls.Unlock` | pallets/democracy/src/lib.rs:930-934 | freezes no more than before and exactly what the record needs |
| `DemocracyCalls.NextBlock` | pallets/democracy/src/lib.rs:579-581 | the state stays sound, exactly the referenda ending in the block are finished, one is launched exactly when it is time and something waits, and `LowestUnbaked` is the count or ongoing |
| `VestingSchedule.LockedUntilEnd` | pallets/linear-release/src/types.rs:92-135 | something is locked exactly until the ending block |
| `VestingSchedule.MergeNeverReleasesEarlier` | pallets/linear-release/src/impls.rs:23-64 | at every later block the merged schedule locks at least what both originals would, and exactly that now |
| `VestingSchedule.MergeExactIff` | pallets/linear-release/src/impls.rs:44-46 | the merge locks exactly the sum now if and only if the sum is a balance |
| `VestingSchedule.MergeWithEnded` | pallets/linear-release/src/impls.rs:32-42 | with at least one schedule ended, the merge locks at every later block exactly what both lock, and is none if and only if both have ended |
| `VestingSchedule.MergedNearLine` | pallets/linear-release/src/impls.rs:44-60 | from its start, the latest of now and both starts, to the later end, the merge of two open schedules runs along the straight line to zero, above it by less than one unit per block |
| `VestingSchedule.MergedAfterEnd` | pallets/linear-release/src/impls.rs:44-60 | after the later end less than one unit per block of the spread is left, and nothing once that many blocks have passed again |
| `VestingSchedule.MergedNow` | pallets/linear-release/src/impls.rs:44-52 | up to its start the merge locks exactly the total |
| `VestingSchedule.MergedEnd` | pallets/linear-release/src/impls.rs:51-60 | the merge starts at the latest of now and both starts, ends no earlier than either original, at most one block short of doubling the remaining time, and with the later one if and only if the remaining blocks divide the total |
| `VestingSchedule.MergedEndCanOvershoot` | pallets/linear-release/src/lib.rs:323-327 | two schedules whose merge ends later than the documented end |
| `LinearReleaseTheorems.KeepFilters` | pallets/linear-release/src/lib.rs:77-99 | what stays is exactly what the action leaves alone and what still locks something |
| `LinearReleaseTheorems.KeepConserves` | pallets/linear-release/src/impls.rs:123-143 | filtering conserves what is locked, at this and every later block, but for what the action takes out |
| `LinearReleaseTheorems.ExecExact` | pallets/linear-release/src/impls.rs:195-232 | the reported total is what the remaining schedules lock, is zero only when none remain, and only a removal lowers it |
| `LinearReleaseTheorems.VestSettles` | pallets/linear-release/src/impls.rs:183-191 | vesting succeeds exactly when something vests, and leaves the hold equal to what the schedules lock |
| `LinearReleaseTheorems.MergeSettles` | pallets/linear-release/src/lib.rs:338-360 | merging succeeds exactly on two indices in bounds, and leaves the hold equal to what was locked |
| `LinearReleaseTheorems.MergeOpWithEnded` | pallets/linear-release/src/lib.rs:338-360 | merging with an ended schedule changes nothing about what the account has locked at any later block |
| `LinearReleaseTheorems.RemoveSettles` | pallets/linear-release/src/impls.rs:362-371 | removing leaves the hold equal to what the other schedules lock; an index out of bounds only vests |
| `LinearReleaseTheorems.TransferSettles` | pallets/linear-release/src/impls.rs:67-111 | a vested transfer fails only for the reasons checked first, its ignored result is always `Ok`, and the hold is what old and new schedules lock |
| `LinearReleaseTheorems.AddKeepsCoverIff` | pallets/linear-release/src/impls.rs:268-295 | adding a schedule without a transfer leaves the hold covering the schedules if and only if it covered them with the new one before |
| `LinearReleaseTheorems.VestTwice` | pallets/linear-release/src/impls.rs:183-191 | vesting at one block and then at a later one is vesting at the later one |
| `LinearReleaseTheorems.OnlyLastVestMatters` | pallets/linear-release/src/impls.rs:123-191 | vesting at any ascending series of blocks leaves what vesting at the last one leaves |
| `LinearReleaseTheorems.ReachableWorld` | pallets/linear-release/src/impls.rs:67-337 | in every reachable state every hold covers what its schedules lock |
| `LinearReleaseTheorems.NothingReleasedEarly` | pallets/linear-release/src/impls.rs:23-232 | whatever calls follow, until a schedule of the account is removed the hold covers what today's schedules lock at that later block |
| `LinearReleasePallet.Pallet.ReportScheduleUpdates` | pallets/linear-release/src/impls.rs:123-143 | the loop keeps exactly the filtered schedules and their saturating total |
| `LinearReleasePallet.Pallet.ExecAction` | pallets/linear-release/src/impls.rs:195-232 | it fails only for a merge index out of bounds; what is left locks exactly the reported total, which is zero only when nothing is left and is conserved but for a removed schedule |
| `LinearReleasePallet.Pallet.WriteRelease` | pallets/linear-release/src/impls.rs:146-162 | the hold ends at the smaller of itself and the total, no other hold moves |
| `LinearReleasePallet.Pallet.WriteVestingSchedule` | pallets/linear-release/src/impls.rs:165-180 | exactly too many schedules are refused; otherwise exactly these are stored, no empty list, and no other entry moves |
| `LinearReleasePallet.Pallet.DoVest` | pallets/linear-release/src/impls.rs:183-191 | keeps every hold covering; succeeds exactly where something vests, leaves exactly what is locked on hold, and changes nothing about what stays locked later |
| `LinearReleasePallet.Pallet.MergeSchedules` | pallets/linear-release/src/lib.rs:338-360 | keeps every hold covering; different indices succeed exactly when in bounds, leave exactly what is locked on hold, and lock no less at any later block, exactly as much if one of the two has ended |
| `LinearReleasePallet.Pallet.RemoveVestingSchedule` | pallets/linear-release/src/impls.rs:362-371 | keeps every hold covering; leaves on hold exactly what the other schedules lock |
| `LinearReleasePallet.Pallet.SetReleaseSchedule` | pallets/linear-release/src/impls.rs:309-337 | refuses exactly invalid or surplus schedules; lowers the hold to what all schedules lock, and covers them if and only if it did before |
| `LinearReleaseTheorems.SetSettlesIff` | pallets/linear-release/src/impls.rs:309-337 | the same of the step, for covered and uncovered holds alike |
| `LinearReleasePallet.Pallet.AddReleaseSchedule` | pallets/linear-release/src/impls.rs:268-295 | moves no hold; every hold covers its schedules afterwards if and only if it covered them together with the new one |
| `LinearReleasePallet.Pallet.DoVestedTransfer` | pallets/linear-release/src/impls.rs:67-111 | keeps every hold covering; refuses exactly for the reasons checked up front, and otherwise holds exactly what old schedules and the new one lock |
| `MergeCandidates.NextMergeCandidates` | pallets/funding/src/runtime_api.rs:176-209 | the search over the ordered map finds nothing if and only if no two started schedules end within the distance; otherwise it finds the pair completed first, with the partner ending first |
| `MergeCandidates.CandidatesMerge` | pallets/funding/src/runtime_api.rs:176-209 | a candidate pair can always be merged |
| `Auction.SellMoves` | pallets/funding/src/types.rs:438-451 | an in-bounds update of a lot on the ladder moves it by exactly the tokens sold, in closed form |
| `Auction.OnlySumOfSalesMatters` | pallets/funding/src/types.rs:438-451 | however sales are split, only their sum decides price and remaining amount |
| `Auction.AfterIsRung` | pallets/funding/src/types.rs:445-451 | every lot reached is a whole number of price steps up, and the tokens above the first price are those sold beyond the first lot |
| `Auction.WalkTakesTotal` | pallets/funding/src/types.rs:453-470 | the walk takes exactly the total if the tokens above the first price fit in it, and otherwise overshoots by less than one bucket |
| `Auction.WapIsWeightedAverage` | pallets/funding/src/types.rs:453-478 | the result is the price sum weighted by US dollars over the saturated US dollars, rounded down by a stated amount per bucket, and at least the initial price less that rounding; it is at most the current price while the weighted sum is within that price times the divisor, in particular without saturation, and exceeds it once the weighted sum does by more than the rounding |
| `Auction.LevelIs` | pallets/funding/src/types.rs:458-470 | what the walk takes at which price, in closed form |
| `Auction.WapCanExceedPrice` | pallets/funding/src/types.rs:472-478 | an input on which the sum of US dollars saturates and the result exceeds the current price |
| `Auction.WapFailsIff` | pallets/funding/src/types.rs:472-478 | it divides by zero exactly when tokens are walked and at every price those taken are worth less than one unit |
| `Auction.AuctionPriceSound` | pallets/funding/src/functions/3_auction.rs:8-16 | for an auction made up of any in-bounds sales, the walk covers the wanted tokens, and the price does not exceed the highest paid while the US dollars are a balance or their weighted sum stays within that price |
| `Auction.UnsoldAuctionKeepsPrice` | pallets/funding/src/types.rs:453-457 | an auction whose first lot is not sold out ends at its opening price |
| `AuctionHouse.AfterNothing` | pallets/funding/src/types.rs:428-435 | a new bucket is the foot of its ladder: nothing is sold |
| `AuctionHouse.Bucket.Update` | pallets/funding/src/types.rs:438-443 | wherever on a ladder the bucket stood, it then stands exactly the removed tokens further up; more than it has counts as all it has |
| `AuctionHouse.Bucket.Next` | pallets/funding/src/types.rs:448-451 | one price step up the ladder, with what was left now counted above the first price |
| `AuctionHouse.Bucket.CalculateWap` | pallets/funding/src/types.rs:453-478 | the loop and folds compute the average of the walked levels, or fail |
| `AuctionHouse.BidsAddUp` | pallets/funding/src/functions/3_auction.rs:133-164 | the parts of a bid add up to it, and each is within the lot and at the price where the ladder then stands |
| `AuctionHouse.SplitBid` | pallets/funding/src/functions/3_auction.rs:133-167 | the loop yields those parts and leaves the bucket after exactly the bid amount |
| `AuctionHouse.TicketIsSpent` | pallets/funding/src/runtime_api.rs:154-170 | a ticket is spent to the last unit on rounded-down costs plus one unit per free purchase, so no subtraction clamps and the cost never exceeds the ticket |
| `AuctionHouse.AffordableIsMost` | pallets/funding/src/runtime_api.rs:161 | one token more would exceed the ticket, but for the rounding of the reciprocal |
| `AuctionHouse.PurchasesAreGreedy` | pallets/funding/src/runtime_api.rs:158-170 | every purchase takes the whole lot the ladder then stands at, or so much that one token more would exceed what is left of the ticket, but for the rounding of the reciprocal |
| `AuctionHouse.QuoteIsGreedy` | pallets/funding/src/runtime_api.rs:158-170 | while the first lot is not sold out the quote is at most one token short, but for that rounding |
| `AuctionHouse.WalkedSells` | pallets/funding/src/runtime_api.rs:154-170 | the walked bucket is the starting bucket after the quoted sales, each in bounds; with non-empty lots it is the starting bucket after selling the quoted amount |
| `AuctionHouse.SellingNothingMovesIff` | pallets/funding/src/types.rs:438-443 | selling nothing leaves a bucket alone if and only if it is not empty, or its successor is empty and no dearer |
| `AuctionHouse.QuoteTicket` | pallets/funding/src/runtime_api.rs:154-170 | the loop ends for every ticket, quotes the saturated sum of the greedy purchases, at most one token short while the first lot lasts, and fails only on a price of zero |
| `AuctionHouse.FundingAssetToCtAmount` | pallets/funding/src/runtime_api.rs:135-174 | with an average price the quote costs at most the ticket and is at most one token short; otherwise it is the ladder quote, with the same bound while the first lot lasts |
| `ElectionsTheorems.SubmitAcceptedIff` | pallets/elections-phragmen/src/lib.rs:439-456 | a candidacy is accepted exactly from an account not yet standing, with funds, a large enough witness and at most the limit of candidates before; the limit is exceeded if and only if it was reached before |
| `ElectionsTheorems.OneCandidateTooMany` | pallets/elections-phragmen/src/lib.rs:444 | an input on which one candidate too many is accepted |
| `ElectionsTheorems.SubmitKeepsInvariant` | pallets/elections-phragmen/src/lib.rs:439-456 | a candidacy keeps lists sorted and disjoint and holds equal to recorded deposits |
| `ElectionsTheorems.RenounceAcceptedIff` | pallets/elections-phragmen/src/lib.rs:484-520 | a role can be renounced by exactly those who hold it, and the bond is always there to release |
| `ElectionsTheorems.ReplaceAcceptedIff` | pallets/elections-phragmen/src/lib.rs:764-784 | exactly the members can be removed |
| `ElectionsTheorems.ReplaceKeepsInvariant` | pallets/elections-phragmen/src/lib.rs:764-824 | replacing a member frees exactly its bond, keeps everything sorted and disjoint, keeps the prime a member and sends a balanced report |
| `ElectionsTheorems.NextIsNew` | pallets/elections-phragmen/src/lib.rs:785-796 | the replacement is never already a member |
| `ElectionsTheorems.NextIsSeated` | pallets/elections-phragmen/src/lib.rs:785-796 | the best runner-up is a member afterwards and no seat stays empty |
| `ElectionsTheorems.ReplaceTells` | pallets/elections-phragmen/src/lib.rs:800-821 | the report names exactly who came and who left, and the prime stays unless it is the one removed |
| `ElectionsRuns.SeatedByRank` | pallets/elections-phragmen/src/lib.rs:962-982 | every seat goes to a backed winner at its stake; the first of them become members, the others runners-up from worst to best |
| `ElectionsRuns.ElectionSettles` | pallets/elections-phragmen/src/lib.rs:1018-1056 | after an election everyone who stood is seated with the same deposit and hold or has lost exactly that deposit; nobody else is affected |
| `ElectionsRuns.ElectionSlashesInFull` | pallets/elections-phragmen/src/lib.rs:1018-1037 | slashes leave no remainder and the defensive zero deposit is never used |
| `ElectionsRuns.ElectionTakesEffectIff` | pallets/elections-phragmen/src/lib.rs:891-1063 | a round is counted if and only if someone stands, there are not too many voters and the election method answers; then candidates are gone, backed winners seated by rank with their deposits, everyone else without a hold, the prime the best; otherwise nothing changes |
| `ElectionsRuns.ElectionCallTakesEffectIff` | pallets/elections-phragmen/src/lib.rs:290-297 | the same of the election call |
| `ElectionsRuns.BallotWeighs` | pallets/elections-phragmen/src/lib.rs:991-999 | a ballot naming an account once, in position p, gives it the stake times what p leaves of the highest multiplier |
| `ElectionsRuns.PrimeIsBest` | pallets/elections-phragmen/src/lib.rs:989-1004 | the prime maximises the position-weighted stake over all members, the highest account id winning ties |
| `ElectionsRuns.PositionsFit` | pallets/elections-phragmen/src/lib.rs:992-994 | the position subtraction never underflows in a reachable state |
| `ElectionsRuns.ElectionKeepsInvariant` | pallets/elections-phragmen/src/lib.rs:952-1062 | an election keeps every invariant |
| `ElectionsRuns.GenesisInvariant` | pallets/elections-phragmen/src/lib.rs:704-743 | every genesis that does not panic satisfies the invariants |
| `ElectionsRuns.GenesisPanicsIff` | pallets/elections-phragmen/src/lib.rs:704-726 | genesis panics exactly on too many members, a duplicate, or a stake beyond the balance |
| `ElectionsRuns.SeedRecords` | pallets/elections-phragmen/src/lib.rs:720-735 | every genesis member is seated with its stake and votes for itself with it |
| `ElectionsRuns.ReachableInvariant` | pallets/elections-phragmen/src/lib.rs:439-1062 | in every reachable state members and candidates are strictly sorted, seats disjoint and within bounds, holds equal to recorded deposits, the prime a member, and every report balanced |
| `ElectionsPallet.OrderDoesNotMatter` | pallets/elections-phragmen/src/lib.rs:918-1000 | ballots add up to the same approval in whatever order storage yields the voters |
| `ElectionsPallet.PrimeVotes` | pallets/elections-phragmen/src/lib.rs:989-1000 | the nested loops compute every member's saturated approval |
| `ElectionsPallet.Pallet.constructor` | pallets/elections-phragmen/src/lib.rs:704-743 | the loop over the genesis members builds the genesis state, which satisfies every invariant |
| `ElectionsPallet.Pallet.SubmitCandidacy` | pallets/elections-phragmen/src/lib.rs:439-456 | keeps every invariant; accepts exactly those not standing, with funds, witness and room, who then have exactly the bond on hold |
| `ElectionsPallet.Pallet.RenounceCandidacy` | pallets/elections-phragmen/src/lib.rs:484-520 | keeps every invariant; accepts exactly the holders of the role, who are then on no list and have no hold left |
| `ElectionsPallet.Pallet.RemoveAndReplaceMember` | pallets/elections-phragmen/src/lib.rs:764-824 | keeps every invariant; removes exactly members, who are then on no list and have no hold left, seats the best runner-up, and keeps the prime unless it is the one removed |
| `ElectionsPallet.Pallet.RemoveMember` | pallets/elections-phragmen/src/lib.rs:544-562 | keeps every invariant; removes exactly members, and if asked to holds an election at once, which takes effect exactly if it can |
| `ElectionsPallet.Pallet.Vote` | pallets/elections-phragmen/src/lib.rs:365-405 | keeps every invariant; states acceptance if and only if; the ballot is stored as cast with at most the balance, locked up for the whole period, and a locked-up stake does not fall while the balance is there |
| `ElectionsPallet.Pallet.RemoveVoter` | pallets/elections-phragmen/src/lib.rs:414-420 | keeps every invariant; exactly a voter whose lock-up is over can leave |
| `ElectionsRuns.VotesStayLockedUp` | pallets/elections-phragmen/src/lib.rs:365-420 | whatever calls follow, until the lock-up ends the voter stays, with at least the same stake and lock-up |
| `ElectionsPallet.Pallet.ElectPrime` | pallets/elections-phragmen/src/lib.rs:989-1004 | counting the collected ballots yields the best approved member |
| `ElectionsPallet.Pallet.DoPhragmen` | pallets/elections-phragmen/src/lib.rs:891-1063 | keeps every invariant; takes effect exactly if someone stands, voters are not too many and there is an answer, with everything an election leaves, whatever the order of voters; otherwise nothing changes |

## Left out

- Democracy metadata, vetoes, the bookkeeping of `emergency_cancel`, origin checks, events, weights and the enactment of approved proposals through the scheduler: easy members around the modelled state.
- Democracy: a failing freeze or release in the currency is not modelled; the 32-bit wrap of referendum and proposal counters is not modelled.
- Democracy: an empty electorate, which makes the thresholds divide by zero, is excluded by type.
- DemocracyRuns.ReachableInvariant: assumes at least one depositor per proposal and at least one block of voting, as a sound configuration has; `ProposeExactIff` says what happens without the former.
- Linear release: `vest_all`, `vest_all_other` and `remove_all_vesting_schedules`, which loop over the modelled calls while storage changes.
- Linear release: the failure of a release in the currency; block numbers are converted to balances unchanged.
- Elections: the inside of `seq_phragmen`, the conversion of currency to votes, the ranking of runners-up by stake, and the freeze behind a vote.
- Elections: `clean_defunct_voters`, which removes voters whose votes name nobody standing, locked up or not.
- Elections: candidates are modelled as seat holders without stake, so that the three lists share one type.
- Auction.WapIsWeightedAverage: between the two conditions for the bound on the result lies the rounding of one unit and one share of the current price per bucket, within which the folds decide.
- Funding: projects, evaluations, bids beyond the split over buckets, contributions, settlement and migration.
- Storage iteration order is a parameter of `DoPhragmen`; ordered maps and binary search of the standard library are modelled by their contracts.
- The one-byte encoding of votes, the other pallets, the runtimes and the node.
