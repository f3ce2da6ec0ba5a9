# fundmesh core, modelled in Dafny

fundmesh is a milestone-based crowdfunding platform. A Next.js front-end drives on-chain
Project, ProjectFactory and UserRegistry contracts, and a subgraph indexes their events.
This project models two groups of sequential logic from it.

**On-chain rules, as the contract tests pin them.** The Solidity sources are not part of
this model. Their behaviour is taken from what the tests assert, plus the assumptions listed
below, with record shapes taken from the generated ABI bindings.
- `milestones.dfy` models the milestone list of a Project:
  - `createMilestone` and `createMilestones` as pure transitions returning a `Result`;
  - the `getMilestonesCount`, `milestones(i)` and `milestoneStatuses(i)` getters;
  - the factory rule that the sender of `createProject` becomes the owner, not the
    `recipient` argument.
- `user_registry.dfy` models the UserRegistry. It is a map from address to
  `(exists, profileCid, updatedAt)`. `updateProfile` is a transition
  `(Registry, caller, user, cid, now) -> Result<(Registry, ProfileUpdated)>`. The module
  also models histories of such transactions.

**Front-end helpers.**
- `web3_utils.dfy`:
  - address truncation;
  - the deadline countdown, with a parser proving the countdown text can be decoded;
  - Etherscan links.
- `currency.dfy`:
  - wei-unit bucket selection;
  - the `/\.?0+$/` strip, modelled once as the leftmost-match scan that
    `String.prototype.replace` performs and once in closed form, with a proof that the two agree;
  - `formatAmount` dispatch.
- `dashboard.dfy`:
  - the "trending minus latest, first 6" filter;
  - the activity icons;
  - the IPFS metadata merge for project cards and activity entries.
- `create_form.dfy`:
  - the create-project validator;
  - the defaults the submit handler applies before calling the factory.
- `text.dfy`: shared string helpers. These are decimal rendering with its inverse,
  ECMAScript `trim`, and `substring(0, n)`.
- `wrappers.dfy`: `Option` and `Result`.

**Environment inputs.** The environment is passed in as parameters:
- the block timestamp and `Date.now()`;
- the `NEXT_PUBLIC_NETWORK_NAME` value, where "" means unset;
- the outcome of each IPFS gateway fetch;
- `isAddress`, `isPosInt` and `isPosNum`;
- web3's `toWei`;
- the floating-point texts `Number(v)/d` and `(Number(wei)/1e18).toFixed(6)`.

**Representation conventions.** A string field holding "" stands for a JavaScript value
that is missing or falsy (`undefined`, `null` or `""`). Amounts and thresholds are
unbounded `nat`s.

**Assumptions beyond the tests.** The Solidity contracts are compiled separately. Their
behaviour here is taken from `test/Milestones.test.js` and `test/UserRegistry.test.js`.
The following rules are assumptions that those tests do not pin:
- a new milestone's threshold must exceed the last stored one (the cross-call rule);
- thresholds within a batch must increase strictly. The tests only show that a decreasing
  batch reverts; a batch with two equal thresholds is not tested;
- thresholds have no upper bound: one above `targetContribution` is accepted;
- milestone creation is allowed in every non-terminal state of a project, including after
  contributions or approvals. The tests only create milestones on a fresh project, with
  thresholds 30000, 70000 and 90000, all below the target of 100000;
- `updateProfile` is assumed to accept every cid, including the empty one, and `hasProfile`
  to read the stored `exists` flag. The tests only send non-empty cids.

The escrow operations (contribute, approve, withdraw, cancel, expire, reward) have no
tests in `test/Milestones.test.js` or `test/UserRegistry.test.js`, so they are left out (see below).

## Model

| member | source | states |
|---|---|---|
| `Milestones.NewProject` | test/setup.js:24-34 | The account that sends `createProject` becomes the owner. The recipient argument is stored separately. The milestone list starts empty and valid. |
| `Milestones.CheckMilestone` | test/Milestones.test.js:30-65 | One milestone passes exactly when all four hold: its description is non-empty, its threshold is positive, its recipient is non-empty, and its threshold is above the one before it. An empty description and a zero threshold each give their own error. |
| `Milestones.CreateMilestone` | test/Milestones.test.js:15-83 | Succeeds exactly when the owner sends a valid milestone above the last threshold. Any other sender gets `NotOwner`. On success exactly one milestone is appended, holding the inputs verbatim. Its status is pending (not approved, not completed). Existing milestones, owner and recipient are unchanged. |
| `Milestones.CreateMilestonePreservesValid` | test/Milestones.test.js:85-102 | A successful single creation keeps one status per milestone, every milestone well formed, and thresholds strictly increasing. |
| `Milestones.CreateMilestones` | test/Milestones.test.js:103-116 | A batch from a non-owner is rejected with `NotOwner`. A batch from the owner whose three arrays differ in length is rejected with `LengthMismatch`. |
| `Milestones.CreateMilestonesSpec` | test/Milestones.test.js:85-138 | A batch succeeds exactly when the owner sends equal-length arrays that meet three conditions: every element is well formed, the first threshold is above the existing list's last one, and thresholds strictly increase. On success it appends all elements in input order, each pending. |
| `Milestones.BatchIsSequenceOfSingles` | test/Milestones.test.js:119-138 | A batch equals its first single creation followed by the rest of the batch. The first failure reverts the whole batch. |
| `Milestones.CreateMilestonesPreservesValid` | test/Milestones.test.js:119-138 | A successful batch keeps the project valid: thresholds stay strictly increasing across the whole list. |
| `Milestones.NonIncreasingBatchReverts` | test/Milestones.test.js:85-102 | A batch with any adjacent pair of thresholds that does not increase is rejected. The committed state is then the old project, so nothing is appended. |
| `Milestones.MilestonesCount` | subgraph/generated/ProjectFactory/Project.ts:439-447 | `getMilestonesCount()` is the length of the milestone list. Its meaning is stated by `Milestones.BatchIndexing`: a successful batch grows it by the batch length. |
| `Milestones.MilestoneAt` | subgraph/generated/ProjectFactory/Project.ts:232-262 | `milestones(i)` returns the (recipient, description, threshold) record at index i. It reverts exactly when i is at or past the count. |
| `Milestones.MilestoneStatusAt` | subgraph/generated/ProjectFactory/Project.ts:180-230 | `milestoneStatuses(i)` returns the (approved, approvedAt, approvalsCount, completed, completedAt) record at index i. Past the end the model reverts; that choice is an assumption (see ## Left out). |
| `Milestones.BatchIndexing` | test/Milestones.test.js:128-137 | After a successful batch, the count has grown by the batch length. Index (old count + i) holds the i-th input with a pending status. |
| `Milestones.RecipientCannotCreateMilestone` | test/Milestones.test.js:15-28 | The project's recipient is not its owner when the creator differs, so its createMilestone call is rejected. |
| `Milestones.FirstMilestoneCreation` | test/Milestones.test.js:67-83 | On a fresh project, the owner's call succeeds exactly when the description is non-empty, the threshold is positive and the recipient is non-empty. The count is then 1, `milestones(0)` holds the inputs, and `milestoneStatuses(0)` is pending. |
| `Milestones.FixtureBatches` | test/Milestones.test.js:85-138 | These are the fixture batches. Thresholds 90000/70000/30000 revert. Mismatched lengths revert with `LengthMismatch`. Thresholds 30000/70000/90000 give three milestones in that order. |
| `UserRegistry.GetProfile` | test/UserRegistry.test.js:73-77 | An address that was never written reads the zero profile (exists false). A written one reads its stored entry. |
| `UserRegistry.UpdateProfile` | test/UserRegistry.test.js:24-52 | Succeeds exactly when the sender is the user. Otherwise it fails with `NotProfileOwner`. On success the user's profile becomes (true, cid, now) and every other address reads as before. The event carries the sender, the cid and the timestamp. |
| `UserRegistry.HasProfile` | test/UserRegistry.test.js:73-86 | `hasProfile(user)` reads the stored profile's exists flag. Its meaning is stated by `UserRegistry.HasProfileIffStored` and `UserRegistry.HasProfileIffSelfUpdated`. |
| `UserRegistry.UpdatePreservesInvariant` | test/UserRegistry.test.js:24-38 | At positive block timestamps, every stored entry keeps exists = true and updatedAt > 0. |
| `UserRegistry.HasProfileIffStored` | test/UserRegistry.test.js:73-86 | Under that invariant, `hasProfile` is true exactly for stored addresses. |
| `UserRegistry.SelfUpdateStoresProfile` | test/UserRegistry.test.js:24-52 | A self-update at a positive timestamp succeeds. Afterwards `hasProfile` is true, the cid is stored and updatedAt > 0. The emitted event names the sender and the cid, with a positive timestamp. |
| `UserRegistry.SecondUpdateOverwrites` | test/UserRegistry.test.js:54-71 | A second self-update replaces the first, so the latest cid is read. |
| `UserRegistry.ForeignUpdateReverts` | test/UserRegistry.test.js:89-102 | An update of another address's profile reverts. After it, every address reads the same profile as before. |
| `UserRegistry.HasProfileIffSelfUpdated` | test/UserRegistry.test.js:73-86 | Start from an empty registry and replay a history of transactions. An address then has a profile exactly when some transaction in the history was its own update of its own profile. |
| `UserRegistry.LatestSelfUpdateWins` | test/UserRegistry.test.js:54-71 | After a history, an address reads the cid and timestamp of its latest own update. |
| `Web3Utils.TruncateEthAddress` | client/utils/web3.js:1-6 | A string that does not match the pattern is returned unchanged. A matching one becomes 11 characters: its first 6 characters, then "…", then its last 4 characters. |
| `Web3Utils.TruncatedNeverMatches` | client/utils/web3.js:2 | A truncated address never matches the pattern, because the ellipsis is not ASCII-alphanumeric. |
| `Web3Utils.TruncateIdempotent` | client/utils/web3.js:2-5 | Truncating an already truncated string changes nothing. |
| `Web3Utils.CountdownOf` | client/utils/web3.js:17-22 | The countdown has ended exactly when timeLeft ≤ 0. Otherwise hours < 24 and days·86400 + hours·3600 ≤ timeLeft < days·86400 + (hours+1)·3600. |
| `Web3Utils.CountdownUnique` | client/utils/web3.js:21-22 | Those bounds determine days and hours uniquely, so they specify the floor divisions completely. |
| `Web3Utils.RenderCountdown` | client/utils/web3.js:24-25 | The text is "Ended" exactly for an ended countdown. Every other countdown renders as text ending in "h left". With days > 0 it is exactly the decimal days, "d ", the decimal hours and "h left". With zero days it is exactly the decimal hours and "h left". The numbers have no leading zeros, and the text contains the day marker 'd' exactly when days > 0. `Web3Utils.CountdownRoundTrip` proves the text decodes back to the countdown. |
| `Web3Utils.FormatDeadline` | client/utils/web3.js:15-26 | The text is "Ended" exactly when timestamp − now ≤ 0. Otherwise it ends in "h left". |
| `Web3Utils.CountdownRoundTrip` | client/utils/web3.js:24-25 | Parsing a rendered countdown gives back its days and hours. This holds for both the "{d}d {h}h left" and the "{h}h left" forms, so the text is unambiguous. |
| `Web3Utils.FormatDeadlineDecodes` | client/utils/web3.js:15-26 | The deadline text decodes to exactly the floor-division countdown of timestamp − now. |
| `Web3Utils.EffectiveNetwork` | client/utils/web3.js:29 | An unset or empty network name becomes "sepolia". Any other name is kept. |
| `Web3Utils.GetEtherscanUrl` | client/utils/web3.js:28-32 | "mainnet" links to https://etherscan.io. Any other network links to https://{network}.etherscan.io. The link always ends in "/address/" + address. |
| `Web3Utils.EtherscanUrlInjective` | client/utils/web3.js:30-31 | On one network, the link determines the address. |
| `Currency.UnitOf` | client/utils/currency.js:5-8 | The unit is chosen by integer range: [0, 10^3) plain, [10^3, 10^6) K, [10^6, 10^9) M, 10^9 and above B. Each direction is proved. |
| `Currency.FormatWei` | client/utils/currency.js:3-9 | Below 1000 the text is exactly the decimal integer followed by " WEI". Otherwise it is the quotient text of the amount divided by its unit's divisor (10^3, 10^6 or 10^9), followed by that unit's suffix. |
| `Currency.UnitDivisorScales` | client/utils/currency.js:5-8 | The chosen unit's divisor never exceeds the amount. Below the billions unit, the amount is also less than 1000 times the divisor, so the printed quotient lies in [1, 1000). |
| `Currency.FormatWeiEndsInWei` | client/utils/currency.js:5-8 | Every wei text ends in " WEI". |
| `Currency.FormatWeiUnitIdentifiesRange` | client/utils/currency.js:6-8 | The text ends in "K WEI", "M WEI" or "B WEI" exactly when the amount is in that unit's range. This holds whatever text the float quotient has. |
| `Currency.FormatSmallWeiRoundTrip` | client/utils/currency.js:5 | Below 1000, the number before " WEI" reads back as the amount. |
| `Currency.StripTrailingZeros` | client/utils/currency.js:28 | The strip only removes a suffix. |
| `Currency.MatchPositions` | client/utils/currency.js:28 | `\.?0+$` matches from position i exactly in two cases: i is inside the trailing run of zeros, or i is a dot immediately before that run. |
| `Currency.ReplaceFirstMatch` | client/utils/currency.js:28 | The replacement cuts the string at the leftmost position where the pattern matches, as `String.prototype.replace` does. This equals the closed-form strip. |
| `Currency.StripFixed6` | client/utils/currency.js:27-28 | Apply the strip to a digits "." 6-digits text. It keeps the integer part. It removes only fraction zeros, plus the dot exactly when all six are zero. What remains with a dot ends in neither "0" nor ".". |
| `Currency.FormatEth` | client/utils/currency.js:25-29 | The ether text is the stripped six-decimal text followed by " ETH". |
| `Currency.FormatAmount` | client/utils/currency.js:11-23 | A missing value or zero gives "0 ETH". A positive amount below 10^15 goes to `formatWei`. Anything else goes to `formatETH`. |
| `Currency.FormatAmountUnit` | client/utils/currency.js:18-22 | The text ends in " WEI" exactly for positive amounts below 10^15. It ends in " ETH" exactly otherwise. |
| `Dashboard.WithoutIds` | client/pages/dashboard.js:108-110 | A project is kept exactly when it is in the trending list and its id is not among the excluded ids. |
| `Dashboard.WithoutIdsAppend` | client/pages/dashboard.js:109-110 | Filtering distributes over concatenation, so kept projects stay in trending order. |
| `Dashboard.UniqueTrending` | client/pages/dashboard.js:107-111 | The shown list is the first min(6, candidates) of the filtered trending list. It is order-preserving and has exactly 6 entries when 6 candidates exist. No entry shares an id with a latest project. |
| `Dashboard.ActivityIcon` | client/pages/dashboard.js:194-207 | Each of the nine listed types maps to its fixed icon. Every other type maps to "bell". |
| `Dashboard.TerminalActivitiesUseBell` | client/pages/dashboard.js:194-207 | PROJECT_CANCELLED and PROJECT_EXPIRED have no icon of their own and show "bell". |
| `Dashboard.MergeMetadata` | client/pages/dashboard.js:23-28 | The name is replaced only when it is "Untitled Project". An existing description or imageCid is kept, and the metadata value is used only when the field is missing. All other fields are unchanged. |
| `Dashboard.NeedsMetadata` | client/pages/dashboard.js:18 | A card is looked up when it has a cid and lacks an image or still has the placeholder name. `Dashboard.MergeSettlesCard` shows a complete merge clears it. |
| `Dashboard.FetchIpfsMetadataIfNeeded` | client/pages/dashboard.js:16-35 | The card is returned unchanged when it has no cid. It is also unchanged when it has both an image and a real name, or when the fetch failed or was not ok. Otherwise the metadata is merged. |
| `Dashboard.MergeIdempotent` | client/pages/dashboard.js:23-28 | Merging the same metadata twice is the same as merging it once. |
| `Dashboard.MergeSettlesCard` | client/pages/dashboard.js:18-28 | After merging metadata that has an image and a real name, the card needs no further fetch. |
| `Dashboard.EnrichActivity` | client/pages/dashboard.js:160-180 | Only an activity whose project is untitled and has a cid changes, and only after a successful fetch. Then only the project name changes, to the metadata name. |
| `CreateForm.ImageRejected` | client/pages/projects/create.js:125-128 | An image is rejected exactly when one is present and it is over 5,000,000 bytes or its type is not "image/png". |
| `CreateForm.NameRejected` | client/pages/projects/create.js:130-133 | A name is rejected exactly when it trims to "" or its untrimmed length is below 5. `CreateForm.BlankNameRejected` and `CreateForm.PaddedNameAccepted` state the two consequences. |
| `CreateForm.RecipientRejected` | client/pages/projects/create.js:143-146 | A recipient is rejected exactly when it does not trim to "" and the untrimmed text fails `isAddress`. |
| `CreateForm.DeadlineCheckAsWritten` | client/pages/projects/create.js:135-141 | In the deadline rule as written, a cleared (null) deadline throws. A date gets the past-deadline error exactly when it is before now. |
| `CreateForm.ClearedDeadlineThrows` | client/pages/projects/create.js:135 | A null deadline makes the validator throw a TypeError. |
| `CreateForm.DeadlineError` | client/pages/projects/create.js:135-141 | A deadline passes exactly when it is a date at or after now. A missing deadline (never set or cleared) gives the "required" error and a past one gives the "future" error. The two errors are exclusive and checked in that order. |
| `CreateForm.DeadlineCorrectionConservative` | client/pages/projects/create.js:135-141 | On every input the written rule handles, the corrected rule gives the same result. |
| `CreateForm.CollectErrors` | client/pages/projects/create.js:121-161 | The error flag stays down exactly when no message was added. Each field gets a message exactly when its rule failed. |
| `CreateForm.ValidateForm` | client/pages/projects/create.js:121-161 | It returns true exactly when no rule added an entry, which is exactly when all six rules pass. Each field has an entry exactly when its rule fails. This uses the corrected deadline rule (see ## Findings). |
| `CreateForm.AbsentImageNeverRejected` | client/pages/projects/create.js:125-128 | A form without an image never fails the image rule. |
| `CreateForm.PaddedNameAccepted` | client/pages/projects/create.js:130-133 | A name of length ≥ 5 with one non-whitespace character passes, however much of it is padding. |
| `CreateForm.BlankNameRejected` | client/pages/projects/create.js:130-133 | A whitespace-only name fails, whatever its length. |
| `CreateForm.BlankRecipientAccepted` | client/pages/projects/create.js:143-146 | A blank or whitespace-only recipient never fails, whatever `isAddress` says. |
| `CreateForm.DeadlineSeconds` | client/pages/projects/create.js:77 | The seconds sent on-chain are floor(ms / 1000): s·1000 ≤ ms < s·1000 + 1000, also for negative ms. |
| `CreateForm.DefaultedPrefix` | client/pages/projects/create.js:78-79 | A blank NFT name or symbol becomes the first 10 or 4 characters of the project name. Anything else is used verbatim. |
| `CreateForm.DefaultedRecipient` | client/pages/projects/create.js:87 | The connected account is used only when the field is exactly "". Any other field value is sent verbatim. |
| `CreateForm.BuildCreateProjectArgs` | client/pages/projects/create.js:77-100 | The factory call receives three defaulted values: the recipient, the NFT name and the symbol. It also receives the floored deadline, the minimum contribution verbatim, and the target converted by `toWei`. |
| `CreateForm.PrepareCreateProject` | client/pages/projects/create.js:66-100 | The factory arguments are produced exactly when the form is valid. A valid form always carries a date. Otherwise a non-empty error map is returned. This uses the corrected deadline rule (see ## Findings). |
| `CreateForm.WhitespaceRecipientSentAsIs` | client/pages/projects/create.js:143-146 | A whitespace-only recipient passes validation and is sent to the factory unchanged. |
| `Text.NatToString` | client/utils/currency.js:5 | Template-literal printing of an integer gives a non-empty digit string with no leading zero. |
| `Text.NatToStringInjective` | client/utils/currency.js:5 | Different amounts print as different decimal texts. |
| `Text.NatToStringRoundTrip` | client/utils/currency.js:5 | Parsing the printed decimal gives back the number. |
| `Text.Trim` | client/pages/projects/create.js:130 | `trim` returns a contiguous slice of the string with only whitespace before and after it. A non-empty result starts and ends with a non-whitespace character, so the slice is exactly the string minus its leading and trailing whitespace. |
| `Text.TrimEmptyIffAllWhitespace` | client/pages/projects/create.js:130 | `s.trim() === ''` exactly when every character is ECMAScript whitespace or a line terminator. |
| `Text.Prefix` | client/pages/projects/create.js:78-79 | `substring(0, n)` has length min(n, len) and is a prefix of the string. |

## Left out

- Project escrow behaviour is not modelled: contribute, approve, withdraw, cancel, expire,
  reward, approveMilestone and withdrawMilestone. None of them is tested in
  `test/Milestones.test.js` or `test/UserRegistry.test.js`. The generated getters only fix
  return shapes, so any behaviour built on them would be invented.
- Milestone creation on a cancelled, completed or expired project is not constrained. No
  test pins it.
- The order of checks inside `createMilestone` and `createMilestones` is not pinned by the
  tests. The model checks the owner first, then the description, threshold, recipient and
  ordering. For a batch it checks the owner, then the lengths.
- An empty batch (three empty arrays) is accepted as a no-op. No test pins it.
- The tests pass `''` as an `address` argument. web3 rejects that while encoding the call,
  before any contract code runs. The model treats the empty recipient as rejected either way.
- Solidity `uint256` bounds on thresholds and timestamps are not modelled, because numbers
  are unbounded `nat`s. No test in `test/` approaches 2^256.
- `Milestones.MilestoneStatusAt`: its out-of-range behaviour is not pinned. The model
  reverts past the end, as a public array getter does. The binding `milestoneStatuses(uint256)`
  fits a `mapping(uint256 => MilestoneStatus)` equally well. A mapping getter would return the
  zero record (equal to `Pending`) instead, and no test reads an index out of range.
- The autogenerated bindings are not modelled: thin `ethereum.call` wrappers, used only for
  record field order.
- The subgraph mappings are not modelled. Their only computation is `BigDecimal` division
  inside graph-ts.
- Floating-point formatting is left out. This covers `formatEther`, the `Number(...)/1e18`
  and `toFixed(6)` of `formatETH`, the `Number(value)/1000…` quotients of `formatWei`, and
  the dashboard progress percentage. The quotient and fixed-point texts are parameters.
- `Currency.StripFixed6`: its guarantees assume the `toFixed(6)` text has the
  digits-dot-six-digits shape. Values of 10^21 ether or more print in exponent form and are
  not covered.
- `isPosInt`, `isPosNum` (JavaScript coercion) and `isAddress` (web3-validator) are opaque
  predicates.
- JavaScript string lengths count UTF-16 code units, while Dafny strings are sequences of
  code points. `name.length < 5`, `substring(0, 10)` and `substring(0, 4)` agree with the
  model only for text without characters outside the Basic Multilingual Plane.
- An invalid `Date` (NaN time) as the deadline is not modelled. The date picker yields a
  valid date or `null`.
- React rendering, hooks, `fetch`, IPFS upload, wallet connection, the async file iterator
  and `Date.now` are not modelled. Fetch outcomes and clocks are parameters.
- Build, deploy and config scripts, `test/Project.test.js` and `test/helpers.js` are not
  modelled.

## Findings

| source | as written | input that shows it | evidently intended | confidence | as-written member | corrected member |
|---|---|---|---|---|---|---|
| client/pages/projects/create.js:135 | `typeof values.deadline.getTime` reads a property of the deadline value. The date picker's `onChange` stores `null` when the user clears the date, and reading `getTime` of `null` throws a TypeError. `handleSubmit` then never reaches `setLoading(false)`. | the deadline field cleared after a date was picked (deadline = `null`) | report "Deadline is required to be a valid calendar date/time", as for a deadline that was never set | medium; not executed | `CreateForm.DeadlineCheckAsWritten` (shown by `CreateForm.ClearedDeadlineThrows`) | `CreateForm.DeadlineError` (used by `CreateForm.ValidateForm`) |
