# at-playground core, modelled in Dafny

This project models the pure decision logic of the at-playground repository, a TypeScript
playground for issuing and trading restricted security tokens. The logic is spread across
small API servers, deploy scripts and an issuer panel:

- **Record stores of the token API (lego02).** The order and trade collections are in
  `orderbook.ts`. The token registry and the purchase-intent list are in `store.ts`.
  - Each collection is one JSON file. `None` stands for a file that does not exist yet.
  - Every operation reads the whole array, changes it and writes it back. That is one step
    from one state value to the next.
  - The order store only keeps rows. It has no matching, filling, cancelling or sorting
    logic, and neither does this model.
- **Deploy scripts** (`deploy_script.dfy`, `retry.dfy`):
  - the `addr` role-prefix normaliser;
  - the `type` check and the `decimals || 18` default;
  - every way a run stops early: an empty address, a missing `roles` section, a cap or a
    minted amount that `BigInt` rejects;
  - which addresses are normalised and which issuance steps are minted, for both copies of
    the YAML deploy script;
  - the bounded `withRetry` policy of the upgradeable-token script. Its outcomes are given
    as a function of the retry counter, and the timer is reduced to a `Sleep` event.
- **Deploy endpoint of the token API** (`token_schema.dfy`, `deploy_api.dfy`):
  - the zod `ConfigSchema`;
  - the YAML/JSON dispatch on the content type;
  - the reply to a failed deploy: a 400 as written, since `execa` throws on a non-zero
    exit before the 500 branch is reached (see "Findings");
  - how the `token:` and `restrictor:` addresses are read out of the script's log. The
    case-insensitive regex is modelled character by character and proved equal to its
    literal reading.
- **Issuer panel** (`issuer_form.dfy`): the comma-list fields, the schedule-row editing and
  the coercing `decimals` check.
- **KYC and gate controllers** (`accounts.dfy`, `kyc.dfy`, `gate.dfy`):
  - the three Prisma calls on the `account` and `kycEvent` tables;
  - the webhook's signature gate, applicant-id fallback, status classifier and
    all-or-nothing transaction;
  - the session's applicant reuse, including a failing access-token call after the write;
  - the permission rule.
- **HD deposit index** (`hd_wallet.dfy`): the first 32 bits of the SHA-256 digest, masked
  to 31 bits, which keeps it non-hardened (BIP-32, section "Child key derivation (CKD)
  functions"). It sits at the address_index level of the BIP-44 path (BIP-44, section
  "Path levels").
- **API bootstrap of lego01 and lego04** (`server_url.dfy`): the port passed to `listen`
  and the server URL that is logged.

Foreign primitives are function parameters:
- the YAML and JSON parsers;
- the WHATWG URL parser;
- SHA-256 and HMAC-SHA256;
- `Number()` on strings;
- the identity-verification provider's `createApplicant` result and `accessToken` call;
- the deploy child process.

JavaScript values that matter are modelled explicitly:
- `Js.JsValue`: `undefined`, `null`, booleans, numbers including NaN and infinities,
  strings, arrays and plain objects;
- truthiness;
- `Number()` coercion, including arrays, which convert through their comma-joined text;
- `trim` and regex `\s` whitespace, using the WhiteSpace and LineTerminator code points;
- ASCII `toLowerCase`.

Behaviour that the code has and a reader might not expect, all modelled as written:
- The order book has no lifecycle engine. Rows are stored and patched, nothing more.
- In the standalone deploy script, a step without `t` is read as the text "undefined". The
  contracts copy reads it as "". Both copies skip such a step, and
  `DeployScript.VariantsPlanAlike` proves they plan the same deployment.
- The deploy endpoint picks YAML only when the content type contains lower-case "yaml", so
  "text/YAML" goes to the JSON parser.
- When a webhook event carries neither `applicantId` nor `userId`, Prisma drops the
  `undefined` filter. Provided the event table accepts a record without an applicant id,
  the first account then takes the new status (`Kyc.MissingApplicantUpdatesFirstAccount`).
- The webhook's `if (!account) return { ok: true }` cannot be reached, because
  `findFirstOrThrow` throws first.
- When the provider returns an empty applicant id, the session stores it and only then
  throws. The next session treats the stored empty id as absent and creates a new
  applicant.
- The issuer panel coerces `decimals`, so `null` passes as 0, `true` as 1, and a YAML list
  `[18]` as 18.
- lego04 with neither `NEXT_PUBLIC_API_BASE` nor `API_PORT` set computes the port `NaN` and
  the server URL "http://localhost:NaN/v1".

## Model

| member | source | states |
|---|---|---|
| `Js.ToNumber` | lego02/apps/issuer-ui/src/app/page.tsx:10 | `Number(v)`: a number is itself, a string goes through the string parser, `true` is 1 and `false` 0, `null` is 0, `undefined` and a plain object are NaN; `[]` is 0, a one-element array converts like its element's text, a longer array is NaN |
| `Js.Truthy` | apps/api/src/modules/kyc/kyc.controller.ts:50 | JavaScript truthiness: `undefined`, `null`, `false`, 0, NaN and "" are falsy, arrays and objects truthy |
| `Text.Trim` | lego01/apps/api/src/main.ts:19 | `trim()`: the result has no leading or trailing whitespace, occurs in the input, and is the input itself when that is already trimmed |
| `Text.TrimSpan` | lego01/apps/api/src/main.ts:19 | `trim()` removes only whitespace: the result sits in the input between an all-whitespace prefix and an all-whitespace suffix, and with `Trim`'s own contract it is exactly the input less its whitespace ends |
| `Text.Lower` | lego02/apps/api/src/store.ts:38 | `toLowerCase`: same length, each ASCII capital replaced by its small letter, every other character kept |
| `Text.Contains` | apps/api/src/modules/kyc/kyc.controller.ts:55 | `includes`: the text starts with the part, or its tail contains it |
| `Text.Join` | lego02/apps/issuer-ui/src/app/page.tsx:92 | `join(",")`: the pieces with one separator between neighbours |
| `Text.ContainsOccurrence` | apps/api/src/modules/kyc/kyc.controller.ts:55 | `includes` holds exactly when the text occurs at some position |
| `Text.IntToDecimal` | lego04/apps/api/src/main.ts:47 | the text starts with '-' exactly when the integer is negative, and the digits after the sign read back as its magnitude, with no leading zero except in "0" itself |
| `Text.TrimEmpty` | lego01/apps/api/src/main.ts:23 | a string trims to empty exactly when it is all whitespace, so `if (apiBaseEnv)` fails exactly on blank input |
| `Text.DecimalRoundTrip` | packages/chain/src/hd-wallet.ts:23 | the printed digits of a number read back as the number |
| `Text.Split` | lego02/apps/issuer-ui/src/app/page.tsx:84 | `split(",")`: at least one piece, no piece holds the separator, joining the pieces gives back the input, and there is more than one piece exactly when the separator occurs |
| `Text.SplitJoin` | lego02/apps/issuer-ui/src/app/page.tsx:84 | splitting the join of separator-free pieces gives the pieces back |
| `OrderBook.Init` | lego02/apps/api/src/orderbook.ts:10-14 | `ensureFiles`: both collections exist afterwards; an existing one is kept, a missing one becomes empty |
| `OrderBook.InitIdempotent` | lego02/apps/api/src/orderbook.ts:45 | calling `init` twice is calling it once |
| `OrderBook.FindIndex` | lego02/apps/api/src/orderbook.ts:57 | `findIndex`: the index of the first row with the id, `None` exactly when no row has it |
| `OrderBook.Merge` | lego02/apps/api/src/orderbook.ts:59 | `{ ...row, ...patch }`: each field present in the patch takes the patch value, each absent field keeps the row's value |
| `OrderBook.MergeUnique` | lego02/apps/api/src/orderbook.ts:59 | those two properties determine the merged row completely |
| `OrderBook.UndefinedClears` | lego02/apps/api/src/orderbook.ts:59 | a patch key `lotId` holding `undefined` clears the row's lot id; a patch without the key keeps it |
| `OrderBook.MergeIdempotent` | lego02/apps/api/src/orderbook.ts:59 | merging a patch twice equals merging it once; the empty patch changes nothing |
| `OrderBook.PutOrder` | lego02/apps/api/src/orderbook.ts:50-54 | appends exactly the order at the end, keeps every earlier order in place, leaves trades alone; fails only when the order file is missing |
| `OrderBook.GetOrder` | lego02/apps/api/src/orderbook.ts:63 | `find`: the first order with the id, or nothing exactly when no order has it |
| `OrderBook.UpdateOrder` | lego02/apps/api/src/orderbook.ts:55-62 | fails with `order_not_found` exactly when no order has the id; otherwise replaces the first match by the merge and returns it, trades untouched |
| `OrderBook.UpdateOrderFrame` | lego02/apps/api/src/orderbook.ts:57-60 | a successful update keeps the length and every row but the first match |
| `OrderBook.UpdateMissingLeavesBook` | lego02/apps/api/src/orderbook.ts:57-58 | an update of an absent id fails with `order_not_found` and produces no new state |
| `OrderBook.UpdateEmptyPatch` | lego02/apps/api/src/orderbook.ts:59-60 | an update with the empty patch writes back the same collections |
| `OrderBook.GetAfterUpdate` | lego02/apps/api/src/orderbook.ts:61-63 | when the patch keeps the id, `getOrder` afterwards returns exactly the row `updateOrder` returned |
| `OrderBook.FindIndexAfterWrite` | lego02/apps/api/src/orderbook.ts:59 | writing a row with the same id at the first match keeps it the first match |
| `OrderBook.PutTrade` | lego02/apps/api/src/orderbook.ts:64-68 | appends exactly the trade at the end, keeps earlier trades, never touches orders |
| `OrderBook.GetAfterPut` | lego02/apps/api/src/orderbook.ts:50-54 | an appended order with a fresh id is what `getOrder` then finds |
| `Registry.Init` | lego02/apps/api/src/store.ts:8-12 | both files exist afterwards; an existing one is never overwritten |
| `Registry.InitIdempotent` | lego02/apps/api/src/store.ts:34 | calling `init` twice is calling it once |
| `Registry.AddTokenRows` | lego02/apps/api/src/store.ts:38-39 | unchanged when a case-insensitively equal token is present; otherwise the row appended with earlier entries kept; either way the token is registered afterwards |
| `Registry.AddToken` | lego02/apps/api/src/store.ts:36-41 | the registry becomes that result, the intents are untouched; fails only when the file is missing |
| `Registry.AddTokenKeepsUnique` | lego02/apps/api/src/store.ts:38-39 | no two entries equal up to letter case, before and after |
| `Registry.AddTokenIdempotent` | lego02/apps/api/src/store.ts:38-39 | adding the same row twice is adding it once |
| `Registry.FirstRegistrationWins` | lego02/apps/api/src/store.ts:38-40 | a second registration of the same address in any case, with any other fields, leaves the first entry |
| `Registry.AddIntent` | lego02/apps/api/src/store.ts:43-47 | appends exactly the intent, keeps earlier intents and the tokens |
| `Registry.AddIntentNoDedup` | lego02/apps/api/src/store.ts:45 | adding the same intent twice stores it twice |
| `Retry.Retryable` | lego02/apps/contracts/deploy/deploy_from_yaml.ts:38 | an error is retried only when its `code` is "ECONNRESET" |
| `Retry.WithRetry` | lego02/apps/contracts/deploy/deploy_from_yaml.ts:34-45 | calls and `delayMs` waits alternate, one wait before each retry; every call but the last threw ECONNRESET within the budget; the last call's value is returned or its error thrown, and that error is not a reset or the counter is past `retries` |
| `Retry.PrependRetry` | lego02/apps/contracts/deploy/deploy_from_yaml.ts:40-41 | a call and a wait placed before the trace of the retried call keep calls and waits alternating and the counter rising by one per call |
| `Retry.WithRetryFromStart` | lego02/apps/contracts/deploy/deploy_from_yaml.ts:34 | from the default counter 1, between 1 and `retries + 1` calls |
| `Retry.ExhaustedRetries` | lego02/apps/contracts/deploy/deploy_from_yaml.ts:38-43 | when every call resets, exactly `retries + 1` calls happen and the last error is thrown |
| `Retry.NonRetryableRethrown` | lego02/apps/contracts/deploy/deploy_from_yaml.ts:43 | any other error is thrown at once, with no wait and no second call |
| `Retry.FirstSuccessWins` | lego02/apps/contracts/deploy/deploy_from_yaml.ts:36 | the first call that returns ends the run with its value, after exactly that many calls |
| `TokenSchema.ValidSteps` | lego02/apps/api/src/index.ts:33-37 | the schedule is accepted exactly when every step has `t`, `mint` and `to`, and is kept step for step |
| `TokenSchema.Parse` | lego02/apps/api/src/index.ts:20-40 | accepted exactly when the required fields are present, `decimals` is an integer in 0..36 and the schedule is valid; name, symbol, cap and owner pass through; defaults `erc20_restricted`, `[]` and `whitelist` are filled in; the schedule is the validated steps when `issuance` is present; absent optional sections stay absent |
| `TokenSchema.DecimalsDecide` | lego02/apps/api/src/index.ts:24 | for an otherwise valid body, `decimals` alone decides acceptance, exactly on the integers 0..36 |
| `TokenSchema.DecimalsExamples` | lego02/apps/api/src/index.ts:24 | 0, 18 and 36 pass; 37, -1, 2.5 and NaN fail |
| `DeployApi.ChooseParser` | lego02/apps/api/src/index.ts:43-44 | text goes to YAML exactly when the content type contains "yaml", else to JSON; a parsed object goes to no parser |
| `DeployApi.NoContentTypeIsJson` | lego02/apps/api/src/index.ts:44 | with no content type, text goes to the JSON parser |
| `DeployApi.YamlContentType` | lego02/apps/api/src/index.ts:18 | "application/x-yaml" selects YAML |
| `DeployApi.UpperCaseYamlIsJson` | lego02/apps/api/src/index.ts:44 | the test is case-sensitive: "text/YAML" goes to JSON |
| `DeployApi.ParseBodyToConfig` | lego02/apps/api/src/index.ts:42-48 | a parse failure is reported, else the schema's verdict on what the chosen parser produced |
| `DeployApi.SkipSpaces` | lego02/apps/api/src/index.ts:82 | `\s*`: the maximal whitespace run from a position |
| `DeployApi.MatchAtIsRegex` | lego02/apps/api/src/index.ts:82 | the greedy match attempt succeeds exactly when the regex matches there, and captures the same text |
| `DeployApi.FirstMatch` | lego02/apps/api/src/index.ts:82 | the leftmost position where the regex matches, or none exactly when it matches nowhere |
| `DeployApi.ExtractAddress` | lego02/apps/api/src/index.ts:82-83 | "" exactly when the log has no match; otherwise a 42-character "0x"/"0X" address, the capture of the first match |
| `DeployApi.IsHexAddress` | lego02/apps/api/src/index.ts:82-83 | the capture group `0x[a-fA-F0-9]{40}` under the `i` flag: "0x" or "0X" and 40 hex digits of either case |
| `DeployApi.RegexMatch` | lego02/apps/api/src/index.ts:82 | the literal reading of `key\s*(0x[a-fA-F0-9]{40})` with the `i` flag at a position: the key in any letter case, whitespace only, then an address |
| `DeployApi.MatchAt` | lego02/apps/api/src/index.ts:82 | one greedy match attempt at a position: the key in any case, `\s*`, then an address; what it captures is a well-formed address |
| `DeployApi.Success` | lego02/apps/api/src/index.ts:82-85 | the success reply carries stdout and the two addresses, each "" or a well-formed address read on its own key |
| `DeployApi.HandleDeploy` | lego02/apps/api/src/index.ts:62-87 | as written: 400 with the parse or schema error on an invalid body; 400 with the exit code when the script exits non-zero, because `execa` throws; the `deploy_failed` reply never occurs; otherwise the success reply for the script's stdout |
| `DeployApi.HandleDeployIntended` | lego02/apps/api/src/index.ts:76-79 | as the exit-code branch intends: 400 exactly on an invalid body; `deploy_failed` with both logs exactly on a non-zero exit; otherwise the success reply |
| `DeployApi.FailedDeployAnswers400` | lego02/apps/api/src/index.ts:62-78 | for a valid body and any non-zero exit code, the endpoint as written answers 400 with that code where the intended reply is `deploy_failed` |
| `DeployApi.DeployVariantsAgree` | lego02/apps/api/src/index.ts:76-85 | apart from a failed deploy, the two agree |
| `DeployApi.DeployReportsToken` | lego02/apps/api/src/index.ts:83-85 | a successful deploy whose log has "token:" and an address reports a well-formed token address |
| `DeployApi.KeyThenAddressFound` | lego02/apps/api/src/index.ts:83 | a key followed by whitespace and an address, anywhere in the log, is always found |
| `DeployScript.Addr` | lego02/apps/contracts/deploy/01_deploy_from_yaml.ts:8-12 | fails exactly on ""; unprefixed input is returned as is; for "eoa:"/"safe:" input, the colon-free text after the prefix up to the next colon |
| `DeployScript.SecondPiece` | lego02/apps/contracts/deploy/01_deploy_from_yaml.ts:10 | for prefixed input, `split(":")[1]` exists and is that colon-free text |
| `DeployScript.FirstPiece` | lego02/apps/deploy/01_deploy_from_yaml.ts:14 | the first piece of a split is the text up to the first separator |
| `DeployScript.AddrStripsPrefix` | lego02/apps/deploy/01_deploy_from_yaml.ts:12-16 | `addr("eoa:X")` and `addr("safe:X")` give X for colon-free X |
| `DeployScript.PrefixedPiece` | lego02/apps/deploy/01_deploy_from_yaml.ts:14 | a prefixed input whose text after the prefix is colon-free maps to that text |
| `DeployScript.PrefixAndColon` | lego02/apps/deploy/01_deploy_from_yaml.ts:14 | an "eoa:"/"safe:" input is a colon-free word, one colon, then the rest |
| `DeployScript.AddrBarePrefix` | lego02/apps/contracts/deploy/deploy_from_yaml.ts:47-51 | `addr("eoa:")` and `addr("safe:")` give "" instead of failing |
| `DeployScript.AddrPrefixCaseSensitive` | lego02/apps/contracts/deploy/01_deploy_from_yaml.ts:11 | "EOA:0xab" is returned unchanged |
| `DeployScript.AddrAll` | lego02/apps/contracts/deploy/01_deploy_from_yaml.ts:66-75 | `addr` on each entry in order; fails exactly when some entry is empty |
| `DeployScript.IsImmediate` | lego02/apps/contracts/deploy/01_deploy_from_yaml.ts:96 | a step is minted when its kind text, lower-cased, is "immediate" |
| `DeployScript.BigIntOf` | lego02/apps/contracts/deploy/01_deploy_from_yaml.ts:49 | `BigInt(x)` succeeds exactly on a present value the conversion accepts, with that value; otherwise it throws |
| `DeployScript.Amounts` | lego02/apps/contracts/deploy/01_deploy_from_yaml.ts:95-98 | every step's amount in order; fails exactly when some amount does not convert |
| `DeployScript.MintsReadableSelected` | lego02/apps/contracts/deploy/01_deploy_from_yaml.ts:95-98 | the amounts of the minted steps all convert exactly when every immediate step's amount does |
| `DeployScript.ImmediateSteps` | lego02/apps/contracts/deploy/01_deploy_from_yaml.ts:94-101 | exactly the steps whose `t`, lower-cased, is "immediate" are kept, nothing else |
| `DeployScript.ImmediateStepsAppend` | lego02/apps/contracts/deploy/01_deploy_from_yaml.ts:95-96 | selection distributes over concatenation, so schedule order is kept |
| `DeployScript.MissingKindSkipped` | lego02/apps/deploy/01_deploy_from_yaml.ts:77 | a step without `t` is skipped in both copies; "IMMEDIATE" is minted |
| `DeployScript.VariantsSelectAlike` | lego02/apps/deploy/01_deploy_from_yaml.ts:75-82 | reading a missing `t` as "undefined" or as "" selects the same steps |
| `DeployScript.PlanDeploy` | lego02/apps/contracts/deploy/01_deploy_from_yaml.ts:22-101 | fails with the type error exactly on a `type` other than "erc20_restricted", then with the missing-roles error exactly when `roles` is absent, then on an empty owner, then on a cap `BigInt` rejects, then with the empty-address error when some minter or admin is empty (before any amount is converted), and that error only when some address is empty; succeeds exactly when in addition minters and admins are non-empty and every immediate step's amount converts; decimals 18 when missing or 0; owner, minters and admins through `addr`; cap and amounts converted; whitelist raw; the immediate mints in order |
| `DeployScript.VariantsPlanAlike` | lego02/apps/deploy/01_deploy_from_yaml.ts:18-85 | both copies of the script plan the same deployment |
| `IssuerForm.TrimNonEmpty` | lego02/apps/issuer-ui/src/app/page.tsx:84 | `.map(trim).filter(Boolean)`: no more pieces than before, each non-empty and trimmed; every piece that does not trim to "" is in the result as trimmed, and every result entry is some piece trimmed |
| `IssuerForm.TrimNonEmptyInOrder` | lego02/apps/issuer-ui/src/app/page.tsx:84 | the result is the trimmed pieces read at increasing positions that name exactly the pieces not blank, so order and repeats are kept |
| `IssuerForm.ShiftPositions` | lego02/apps/issuer-ui/src/app/page.tsx:84 | positions into the tail, moved up by one, pick the same entries of the whole list in the same order |
| `IssuerForm.ShiftCovers` | lego02/apps/issuer-ui/src/app/page.tsx:84 | the moved positions still name every non-blank entry of the tail |
| `IssuerForm.SkipHead` | lego02/apps/issuer-ui/src/app/page.tsx:84 | a blank head is dropped from the selection |
| `IssuerForm.KeepHead` | lego02/apps/issuer-ui/src/app/page.tsx:84 | a non-blank head is selected first |
| `IssuerForm.TrimNonEmptySepFree` | lego02/apps/issuer-ui/src/app/page.tsx:84 | trimming brings no separator into a piece |
| `IssuerForm.TrimNonEmptyClean` | lego02/apps/issuer-ui/src/app/page.tsx:84 | clean pieces pass through unchanged |
| `IssuerForm.ApplyCsv` | lego02/apps/issuer-ui/src/app/page.tsx:83-84 | every item is non-empty, comma-free and trimmed; blank input gives no items; every comma-separated piece that is not blank appears trimmed, and every item is such a piece |
| `IssuerForm.ApplyCsvInOrder` | lego02/apps/issuer-ui/src/app/page.tsx:83-84 | the items keep the order of the pieces they come from |
| `IssuerForm.SubstringSepFree` | lego02/apps/issuer-ui/src/app/page.tsx:84 | a piece of separator-free text is separator-free |
| `IssuerForm.SplitBlank` | lego02/apps/issuer-ui/src/app/page.tsx:84 | blank text splits into itself alone |
| `IssuerForm.CsvRoundTrip` | lego02/apps/issuer-ui/src/app/page.tsx:92 | parsing the comma-join of clean items gives the items back |
| `IssuerForm.CsvIdempotent` | lego02/apps/issuer-ui/src/app/page.tsx:83-84 | parsing the join of a parse gives the same parse |
| `IssuerForm.CsvDropsBlanks` | lego02/apps/issuer-ui/src/app/page.tsx:84 | `" a ,, b"` gives `["a", "b"]` |
| `IssuerForm.TrimNonEmptyExample` | lego02/apps/issuer-ui/src/app/page.tsx:84 | the padded and empty pieces of that example trim as expected |
| `IssuerForm.SplitExample` | lego02/apps/issuer-ui/src/app/page.tsx:84 | that example splits into three pieces |
| `IssuerForm.TrimPadded` | lego02/apps/issuer-ui/src/app/page.tsx:84 | a character with surrounding spaces trims to itself |
| `IssuerForm.SetField` | lego02/apps/issuer-ui/src/app/page.tsx:135 | `{ ...it, [key]: val }`: the field is set, the other two are kept |
| `IssuerForm.UpdateSched` | lego02/apps/issuer-ui/src/app/page.tsx:133-137 | same length; only field `key` of row `i` changes; an out-of-range `i` changes nothing |
| `IssuerForm.AddRow` | lego02/apps/issuer-ui/src/app/page.tsx:139 | exactly the row `{t: "immediate", mint: "", to: ""}` is appended |
| `IssuerForm.DelRow` | lego02/apps/issuer-ui/src/app/page.tsx:140 | exactly row `i` is removed, the others kept in order; an out-of-range `i` changes nothing |
| `IssuerForm.DelUndoesAdd` | lego02/apps/issuer-ui/src/app/page.tsx:139-140 | deleting the row just added restores the schedule |
| `IssuerForm.UiDecimals` | lego02/apps/issuer-ui/src/app/page.tsx:10 | accepted exactly when `Number(v)` is an integer in 0..36, with that value |
| `IssuerForm.UiAgreesWithApi` | lego02/apps/issuer-ui/src/app/page.tsx:10 | the panel accepts a value exactly when the API schema accepts its `Number()` in an otherwise valid config, and the coerced value it keeps is accepted by the API |
| `IssuerForm.UiDecimalsCoercion` | lego02/apps/issuer-ui/src/app/page.tsx:10 | `null` passes as 0 and `true` as 1; a missing value fails; an uploaded YAML list `[]` passes as 0 and `[18]` as 18, a two-element list fails |
| `Accounts.FirstMatching` | apps/api/src/modules/kyc/kyc.controller.ts:51 | `findFirst`: the first matching row, or none exactly when no row matches |
| `Accounts.AnyAccountIsFirst` | apps/api/src/modules/gate/gate.controller.ts:10 | an unfiltered `findFirstOrThrow` gives the first row |
| `Accounts.UpdateWhereId` | apps/api/src/modules/kyc/kyc.controller.ts:58 | `update` by id: every row with that id gets the change, every other row is kept |
| `Accounts.UpdateOneRow` | apps/api/src/modules/kyc/kyc.controller.ts:22-25 | with unique ids, an update by row k's id changes row k alone |
| `Kyc.ClassifyStatus` | apps/api/src/modules/kyc/kyc.controller.ts:55 | exactly three outcomes; APPROVED exactly when the type mentions approval, REJECTED exactly when it mentions rejection and not approval |
| `Kyc.ApplicantRef` | apps/api/src/modules/kyc/kyc.controller.ts:50 | `event.applicantId || event.userId`, as a function of the event |
| `Kyc.ApplicantRefFallback` | apps/api/src/modules/kyc/kyc.controller.ts:50 | `applicantId` when truthy; `userId` when `applicantId` is absent or empty |
| `Kyc.ApplicantFilter` | apps/api/src/modules/kyc/kyc.controller.ts:51 | `undefined` drops the filter, `null` matches NULL, a string matches itself; a boolean, number or array is rejected; an object is outside the model (see Left out) |
| `Kyc.Webhook` | apps/api/src/modules/kyc/kyc.controller.ts:44-62 | `{ok: false}` exactly on a signature mismatch; with a valid signature, a malformed body, an unusable applicant id, no matching account and a non-string `type` each fail with their own error and nothing written, and otherwise the reply is `{ok: true}`, the event is appended and the first matching account takes the classified status |
| `Kyc.WebhookAllOrNothing` | apps/api/src/modules/kyc/kyc.controller.ts:57-60 | the event log grows by one exactly on success; otherwise accounts and events are unchanged |
| `Kyc.MissingApplicantUpdatesFirstAccount` | apps/api/src/modules/kyc/kyc.controller.ts:50-51 | an event naming no applicant updates the first account in the table, assuming the event record's applicant id is optional |
| `Kyc.HasApplicant` | apps/api/src/modules/kyc/kyc.controller.ts:14-16 | `account.kycApplicantId ?? null` is truthy: present and non-empty |
| `Kyc.Reply` | apps/api/src/modules/kyc/kyc.controller.ts:33-38 | the reply names the id with the token and lifetime of the access-token call; a throwing call fails the request with nothing rolled back |
| `Kyc.Session` | apps/api/src/modules/kyc/kyc.controller.ts:11-40 | a stored non-empty id is reused with nothing created; otherwise an applicant is created and its id stored (before any check); a created non-empty id is replied with its access token; an empty, null or missing id fails with the no-id error, another value with the invalid-data error; the reply succeeds exactly when a non-empty id results and the access-token call answers; events untouched |
| `Kyc.SecondSessionReuses` | apps/api/src/modules/kyc/kyc.controller.ts:14-16 | after a successful session, the next one creates nothing, writes nothing and names the same applicant |
| `Kyc.EmptyStoredIdRecreated` | apps/api/src/modules/kyc/kyc.controller.ts:16 | a stored empty id counts as none |
| `Gate.Frozen` | apps/api/src/modules/gate/gate.controller.ts:11 | `(account.flags as any)?.frozen` is truthy |
| `Gate.Decide` | apps/api/src/modules/gate/gate.controller.ts:11-17 | the three flags are equal and true exactly when approved and not frozen; reasons empty exactly then, else the one fixed message |
| `Gate.CheckPermissions` | apps/api/src/modules/gate/gate.controller.ts:9-18 | fails exactly when there is no account; otherwise the decision for the first account |
| `Gate.NotFrozenCases` | apps/api/src/modules/gate/gate.controller.ts:11 | missing flags, a non-object, or a falsy `frozen` mean not frozen; a truthy one means frozen |
| `Gate.ApprovalOpensGate` | apps/api/src/modules/kyc/kyc.controller.ts:55-58 | an approving, correctly signed webhook for the first account opens all three permissions unless it is frozen |
| `HdWallet.Pow2Add` | packages/chain/src/hd-wallet.ts:22 | powers of two multiply by adding exponents |
| `HdWallet.HexValueBound` | packages/chain/src/hd-wallet.ts:19 | n hex digits hold a value below 2^(4n), so 8 digits fit 32 bits |
| `HdWallet.BitAnd` | packages/chain/src/hd-wallet.ts:22 | the bitwise AND never exceeds its second operand |
| `HdWallet.JsAnd` | packages/chain/src/hd-wallet.ts:22 | JavaScript `&` yields a signed 32-bit value |
| `HdWallet.BitAndLowMask` | packages/chain/src/hd-wallet.ts:22 | AND with k low one-bits is the remainder modulo 2^k |
| `HdWallet.MaskKeepsLow31Bits` | packages/chain/src/hd-wallet.ts:22 | on 8 hex digits, `& 0x7FFFFFFF` is the value modulo 2^31 |
| `HdWallet.UserIndex` | packages/chain/src/hd-wallet.ts:19-22 | the index is in [0, 2^31) and is the value of the digest's first 8 hex digits modulo 2^31 |
| `HdWallet.DerivationPath` | packages/chain/src/hd-wallet.ts:23 | "m/44'/60'/0'/0/" followed by decimal digits that read back as the index |
| `HdWallet.PathDeterminesIndex` | packages/chain/src/hd-wallet.ts:23 | different indices give different paths |
| `HdWallet.DepositPath` | packages/chain/src/hd-wallet.ts:17-25 | the path for a user is the path of the masked digest prefix |
| `HdWallet.OnlyFirstEightDigitsMatter` | packages/chain/src/hd-wallet.ts:19 | digests agreeing on the first 8 hex digits give the same path |
| `ServerUrl.StripTrailingSlashes` | lego01/apps/api/src/main.ts:27 | the result does not end in '/', is a prefix of the input, and only slashes were removed |
| `ServerUrl.StripIdempotent` | lego04/apps/api/src/main.ts:41 | stripping twice is stripping once |
| `ServerUrl.StripUnique` | lego01/apps/api/src/main.ts:30 | the stripped string is the only prefix with those properties |
| `ServerUrl.UrlPort` | lego01/apps/api/src/main.ts:26 | the explicit port if any; else 443 exactly for "https:" and 80 for any other protocol |
| `ServerUrl.Lego01` | lego01/apps/api/src/main.ts:19-34 | blank or absent base gives port 0 and "http://localhost:0/v1"; otherwise the stripped trimmed base, with port 0 when the URL does not parse |
| `ServerUrl.Lego01UrlShape` | lego01/apps/api/src/main.ts:24-31 | both branches announce the same URL, which does not end in '/' and differs from the trimmed base only by trailing slashes |
| `ServerUrl.NumberText` | lego04/apps/api/src/main.ts:47 | a template literal prints NaN as "NaN", the infinities by name, and an integer below 2^53 in magnitude in plain decimal; other finite values print as the formatting parameter says |
| `ServerUrl.Lego04NamesPort` | lego04/apps/api/src/main.ts:34-47 | without a base, a port number read from `API_PORT` is announced in plain decimal |
| `ServerUrl.Lego04` | lego04/apps/api/src/main.ts:33-48 | the port is `Number(API_PORT)`; blank base gives "http://localhost:" + port + "/v1"; otherwise the stripped trimmed base |
| `ServerUrl.Lego04ParseIrrelevant` | lego04/apps/api/src/main.ts:39-45 | the parse-success and parse-failure branches give the same result |
| `ServerUrl.Lego04Unconfigured` | lego04/apps/api/src/main.ts:34 | with nothing set, the computed port is NaN and `serverUrl` holds "http://localhost:NaN/v1" |
| `ServerUrl.BlankBaseIgnored` | lego04/apps/api/src/main.ts:38 | a whitespace-only base counts as absent |

## Left out

- File I/O, JSON serialisation and directory creation in the stores: each collection is a value, and a whole-file read/write is one step.
- Concurrent requests and their interleaving of read-modify-write cycles: the source has no locking to verify.
- Chain interaction (Hardhat, ethers, OpenZeppelin upgrades, `grantRole`, `mint`, the nonce manager) and BIP-32 key derivation from the path: foreign code.
- `loadTokenConfig` and `saveTokenConfig`, and the real timer behind `withRetry`'s delay: I/O. Only the call/wait/outcome policy is modelled.
- The js-yaml, JSON and zod parsers and zod's error messages: parsers are parameters, and a schema rejection is one error value.
- A body field of the wrong JSON type (a number where a string is expected): the raw config has typed fields, and only presence and the `decimals` value are validated.
- The temporary YAML file and the `execa` child process in the deploy endpoint: the script's exit code and output are an input. The text of the error `execa` throws is not modelled, only the exit code it reports; a failure to write the file or to start the process is left out with the other I/O.
- The listening port of the deploy API (`API_PORT` or 3100): process setup.
- ServerUrl.Lego04: `app.listen` itself is not modelled. Node rejects a port that is not an integer in 0..65535 (NaN included), so in that case `bootstrap` fails before the URL is logged; the model only states the values computed before the call.
- Kyc.ApplicantFilter: an object `applicantId` is a Prisma filter object in the source (`{}` matches any account, `{ not: null }` any account with an applicant id); filter objects are not modelled, and the model rejects every object with `InvalidFilter`.
- Unicode case mapping: `toLowerCase` is modelled for ASCII letters only. That is exact for the regex keys and the step kinds compared with fixed ASCII text.
- Registry.AddTokenRows: token addresses are compared after ASCII-only lower-casing, so two tokens that differ only in non-ASCII letters ("Ä" and "ä") are distinct here but equal in the source.
- UTF-16: strings are sequences of Unicode characters, so a surrogate pair is one character here and lone surrogates do not occur.
- The WHATWG URL parser, SHA-256, HMAC-SHA256, `Number()` and `BigInt()` on strings, and the formatting of fractional numbers and of integers from 2^53 up: parameters.
- The provider's HTTP client, request signing, and an exception thrown by `createApplicant`: the created applicant's `id` is an input value, and a throw before the write leaves nothing to model. A throwing `accessToken` call is modelled.
- The other columns of the `account` table and database constraints such as the uniqueness of ids: `Accounts.UpdateOneRow` states the row-level consequence under that assumption.
- The issuer panel's other schema fields, its fetch and upload flows and React state: only the editing rules and the `decimals` coercion are modelled.
- Kyc.Webhook: the event record is assumed to accept any applicant id, `undefined` and `null` included (an optional `KycEvent.applicantId` column). The Prisma schema is not part of this model; if that column is required, the transaction fails and writes nothing for such events, and `Kyc.MissingApplicantUpdatesFirstAccount` does not hold.
- Kyc.Webhook: a non-string `type` is one error value; in the source an array `type` would pass `includes` and then fail on the database write, with the same all-or-nothing outcome.
- OrderBook.Merge: a patch can carry `undefined` only for the optional fields `lotId` and `quote`; `undefined` for a required field would leave the row without that field, which the row type cannot hold.
- DeployScript.PlanDeploy: the chain calls made before a failure (deployments, grants, earlier mints) are not recorded in the error; a missing `owner` is given as "", which `addr` rejects the same way; a config that is not an object at all, and a cap given as a YAML number, are not representable; an address given as a YAML number (an unquoted 0x… value, which js-yaml reads as a hex integer) makes `addr` throw a TypeError in the source and is not representable either, since addresses are strings here. Likewise a schedule amount written as a YAML number (`mint: 1000`), which `BigInt` accepts in the source, and a step kind `t` that is not a string: amounts and kinds are strings here.
- Js.ToNumber: numbers are exact reals, so negative zero does not exist here; `Number([-0])` and `Number(-0)` differ in sign in the source and are both 0 here.

## Findings

| source | as written | input that shows it | evidently intended | confidence | as-written member | corrected member |
|---|---|---|---|---|---|---|
| lego02/apps/api/src/index.ts:62-78 | `execa` is awaited without `reject: false`, so a non-zero exit throws and the `catch` answers 400 with the error message; the `exitCode !== 0` branch and its 500 `deploy_failed` reply are unreachable | a valid body whose deploy script exits with code 1 | a 500 `deploy_failed` reply carrying the script's stdout and stderr | high, not executed | `DeployApi.HandleDeploy` with `DeployApi.FailedDeployAnswers400` | `DeployApi.HandleDeployIntended` |
