# Equipment rental system: a verified model of the rental and identity core

This project models, in Dafny, the core of a small equipment rental system written in Java.
The core has two services:

- **Rental lifecycle engine** (`RentalService`). It owns the equipment catalogue, the open
  rentals, the return records and a rental counter. It runs the guarded transitions over
  them:
  - rent: an available item becomes Rented and one rental is opened;
  - return: the rental is closed into one return record and the item becomes Available;
  - force-return: administrators only; a damaged or lost item goes to Maintenance.

  It also adds, edits and removes catalogue items, and answers the role-scoped queries.
- **Identity and lock-out layer** (`AuthenticationService` and `User`). It keeps the account
  list and the session. It provides:
  - case-insensitive user lookup;
  - login, with its fixed order of checks;
  - the failed-attempt counter that locks an account at three;
  - unlock, password change and customer registration;
  - the default accounts.

The model also covers the pure logic both services rest on:

- the rental date arithmetic;
- the return record's amount due;
- the availability test;
- the checks and sanitisers of `ValidationUtils`;
- the `java.lang.String` behaviour the core depends on: `trim`, ASCII case mapping,
  `equalsIgnoreCase`, `contains`, `Integer.toString`, `%03d`, suffix parsing and
  `hashCode` with its 32-bit wrap-around.

## Modules

| file | module | models |
|---|---|---|
| `wrappers.dfy` | `Wrappers` | `Option`, Java's nullable results |
| `strings.dfy` | `Strings` | the string operations listed above |
| `ids.dfy` | `Ids` | the `R###`/`E###`/`C###` scheme, the max-suffix scan and why its IDs are fresh |
| `seqs.dfy` | `Seqs` | `List.remove` at an index; duplicate-freedom |
| `validation_utils.dfy` | `ValidationUtils` | `utils/ValidationUtils.java` |
| `user.dfy` | `UserModel` | `models/User.java` |
| `equipment.dfy` | `EquipmentModel` | `models/Equipment.java` |
| `rental.dfy` | `RentalModel` | `models/Rental.java` |
| `return_record.dfy` | `ReturnRecordModel` | `models/ReturnRecord.java`, with the `RentalTransaction` fields flattened in |
| `authentication.dfy` | `Authentication` | `services/AuthenticationService.java` |
| `ledger.dfy` | `Ledger` | the consistency the rental service keeps, over plain values |
| `rental_service.dfy` | `Rentals` | `services/RentalService.java` |

## How the source became Dafny

- **Mutable objects are classes.** `User`, `Equipment`, `ReturnRecord`, `AuthenticationService`
  and `RentalService` are classes with the source's fields. A field that no core operation
  changes after construction is a `const`. The lists the services mutate (`users`,
  `equipment`, `rentals`, `returns`) are `seq` fields that the methods reassign. Every method
  states its whole new state.
- **`Rental` is a value.** Its setters are never called, so it is a datatype.
- **Loops stay loops.** The three max-scanning ID allocators are one loop method,
  `Ids.ScanMaxSuffix`, proved against the specification function `Ids.MaxSuffix`.
  `initializeRentalCounter` runs that scan over its two lists, in the same order as the
  source.
- **Queries are functions.** The stream filters are functions with `reads` clauses.
- **Error paths are outcomes.** The source returns a message string from each rental
  transition; the model returns a datatype with one constructor per branch. Its `Message()`
  gives the source's literal text; a success message is cut before its `%.2f` amount.
  `login` keeps its `AuthenticationResult` record and its exact messages.
- **The clock is an argument.** `LocalDate.now()` is the `today` argument, an epoch day.
  Money is `real`.

**The consistency invariant** is `Ledger.LedgerConsistent`, a predicate over plain values. It
says:

- equipment IDs are unique;
- an item is Rented exactly when exactly one open rental names it;
- every open rental names a catalogued item;
- each rental ID occurs once across the open rentals and the return records.

`RentalService.Consistent()` applies it to the service's lists. Every transition ensures
`old(Consistent()) ==> Consistent()`, through one Ledger lemma per transition.
`RentalService.Valid()` keeps the rental counter above every rental-ID suffix in use. That is
why each issued rental ID is fresh.

**Where the code is followed literally:**

- **Password hash.** `hashPassword` is a placeholder,
  `"HASH_" + password.hashCode() + "_" + username.hashCode()`, and the model uses exactly
  that (`UserModel.PasswordHash`, with `Text()` giving the stored string). It is no
  cryptographic hash: `UserModel.PasswordHashCollides` exhibits two passwords it confuses.
- **Default accounts.** The second default customer's username is `jane.doe`, not the
  `jane.smith` that the console hint prints.
- **Status edits.** `updateEquipmentStatus` accepts any status. So the "Rented exactly when
  rented" invariant holds after it only when the edit keeps the item's Rented-ness
  (`Ledger.StatusCanBreak` shows both sides).

The plain validation predicates restate the source's own tests directly as their bodies:

- `IsValidRentDays`: `0 < d <= 365`;
- `IsValidPassword`: untrimmed length 6 to 50;
- `IsValidFullName`: trimmed length 2 to 100;
- `IsValidEquipmentId`, `IsValidRentalId`, `IsValidUserId`: the `^E\d{3,}$`-style patterns;
- `IsValidUsername`: the trimmed 3–20 character pattern;
- `IsValidCustomerName`: trimmed length at least 2;
- `IsValidRentRate`: 0 to 10000 inclusive.

Lengths are Java's `String.length()`, counted in UTF-16 code units (`Strings.Utf16Length`):
a character outside the Basic Multilingual Plane counts twice. The username pattern counts
characters, as Java's regular expressions do; no such character matches its class anyway.
The lemmas below relate the predicates to the rest of the model. Where a row's third
column begins "body:", the member has no separate contract: its definition is the
statement, and the row names the lemma that relates it to the rest of the model.

## Model

| member | source | states |
|---|---|---|
| Strings.Trim | src/utils/ValidationUtils.java:54-57 | the result is the infix between the leading and trailing characters at most U+0020; it is empty iff every character is trimmable, and a string with none is kept whole |
| Strings.BlankIffTrimsToEmpty | src/services/AuthenticationService.java:46-52 | the login blank test holds iff trimming leaves the empty string |
| Strings.TrimKeepsKeptEnds | src/utils/ValidationUtils.java:40-42 | a string whose first and last characters are not trimmable is its own trim |
| Strings.Utf16Length | src/utils/ValidationUtils.java:44-50 | `length()` lies between the number of characters and twice it: equal to it iff no character is supplementary, twice it iff all are |
| Strings.ToLower | src/services/RentalService.java:214-218 | lower-cases exactly the ASCII capitals, position by position, keeping the length |
| Strings.ToLowerChar | src/services/RentalService.java:214-218 | a capital moves up by 32, every other character is kept, and no capital is left |
| Strings.IsBlank | src/services/AuthenticationService.java:46-52 | body: every character is one trim removes; `BlankIffTrimsToEmpty` ties it to `trim().isEmpty()` |
| Strings.EqualsIgnoreCase | src/services/AuthenticationService.java:125-130 | body: equal lengths and equal characters up to ASCII case; `EqualsIgnoreCaseIsLowerEquality` and `EqualsIgnoreCaseSymmetric` characterise it |
| Strings.EqualsIgnoreCaseIsLowerEquality | src/services/AuthenticationService.java:125-130 | `equalsIgnoreCase` holds iff the lower-cased strings are equal, both directions |
| Strings.EqualsIgnoreCaseSymmetric | src/services/AuthenticationService.java:125-130 | case-insensitive equality is symmetric |
| Strings.StartsWith | src/services/RentalService.java:35 | body: the string begins with the prefix; `Contains` and `Ids.SuffixOf` build on it |
| Strings.Contains | src/services/RentalService.java:216-218 | body: the term starts the string at some offset; `ContainsAt` and `ContainsSelfAndEmpty` characterise it |
| Strings.ContainsAt | src/services/RentalService.java:214-218 | an occurrence of the term at any offset makes `contains` true |
| Strings.ContainsSelfAndEmpty | src/services/RentalService.java:214-218 | every string contains itself and the empty term, so an empty search matches everything |
| Strings.NatToDecimal | src/models/User.java:56 | the numeral is non-empty and all digits, with at most one, two or three digits exactly below 10, 100 or 1000 |
| Strings.IntToStringShape | src/models/User.java:56 | `Integer.toString` is non-empty, starts with '-' iff the number is negative, and is digits otherwise |
| Strings.IntToString | src/models/User.java:56 | body: a '-' for negatives, then the numeral of the magnitude; `IntToStringShape` and `IntToStringInjective` characterise it |
| Strings.NatToDecimalInjective | src/models/User.java:56 | distinct naturals have distinct numerals |
| Strings.IntToStringInjective | src/models/User.java:56 | `Integer.toString` is injective, both directions |
| Strings.TrimLo | src/utils/ValidationUtils.java:54 | everything before the index is trimmable and the character at it is not |
| Strings.TrimHi | src/utils/ValidationUtils.java:57 | everything from the index on is trimmable and the character before it is kept |
| Strings.Zeros | src/services/RentalService.java:100 | the padding has the requested length and is all '0' |
| Strings.Format3 | src/services/RentalService.java:100 | `%03d` yields at least three digits: exactly three iff the number is below 1000, otherwise the plain numeral |
| Strings.ParseDigits | src/services/RentalService.java:37 | body: a non-empty run of ASCII digits parses to its value, anything else is the skipped exception; `DecimalRoundTrip` and `ParseFormat3` relate it to the formatter |
| Strings.DecimalRoundTrip | src/services/RentalService.java:37 | parsing the decimal numeral of n gives n back |
| Strings.LeadingZerosIgnored | src/services/RentalService.java:37 | leading zeros do not change the parsed value |
| Strings.LeadingZeroIgnored | src/services/RentalService.java:37 | one leading zero does not change the parsed value |
| Strings.ParseFormat3 | src/services/RentalService.java:35-37 | parsing a `%03d` numeral returns the number: format then parse round-trips |
| Strings.Format3Injective | src/services/RentalService.java:100 | `%03d` is injective, both directions |
| Strings.UnsignedHashCode | src/models/User.java:56 | the running `31*h + c` stays below 2^32 |
| Strings.HashCode | src/models/User.java:56 | `hashCode` is a signed 32-bit value |
| Ids.FormatId | src/services/RentalService.java:100 | an ID is its prefix letter followed by three or more digits |
| Ids.SuffixOf | src/services/RentalService.java:35-37 | body: `startsWith(prefix)` and then the parse of the rest, as in all three scans (also src/services/RentalService.java:90-93 and src/services/AuthenticationService.java:157-159); `SuffixOfFormatId` relates it to the IDs issued |
| Ids.SuffixOfFormatId | src/services/RentalService.java:90-93 | the scan parses a generated ID back to its number |
| Ids.FormatIdInjective | src/services/AuthenticationService.java:166 | IDs are equal iff prefix and number are equal |
| Ids.MaxSuffix | src/services/RentalService.java:89-99 | the scan's result is at least the floor and every parsed suffix, and is the floor or one of them |
| Ids.MaxSuffixStep | src/services/RentalService.java:90-97 | one more ID updates the running maximum exactly as the loop body does |
| Ids.ScanMaxSuffix | src/services/AuthenticationService.java:155-165 | the loop computes exactly `MaxSuffix` of the IDs |
| Ids.MaxSuffixAppend | src/services/RentalService.java:31-60 | scanning two lists in turn is scanning their concatenation |
| Ids.MaxSuffixLeast | src/services/RentalService.java:89-99 | any bound on the floor and the suffixes bounds the scan |
| Ids.FreshId | src/services/RentalService.java:249 | a number above every parsed suffix gives an ID not present |
| Ids.NextIdFresh | src/services/RentalService.java:100 | one past the scan's maximum is an unused ID |
| Seqs.RemoveAt | src/services/RentalService.java:300 | removal shortens by one and shifts the later elements down, in order |
| Seqs.RemoveAtMembers | src/services/RentalService.java:150 | removal keeps every other element, drops nothing else, and keeps duplicate-freedom |
| Seqs.DistinctAppend | src/services/RentalService.java:83 | appending a new element keeps duplicate-freedom |
| Seqs.DistinctMoveToEnd | src/services/RentalService.java:299-300 | moving a rental ID from the open part to the end of the history keeps all IDs distinct |
| ValidationUtils.GeneratedIdsAreValid | src/utils/ValidationUtils.java:6-34 | every generated E/R/A/C ID passes its ID validator |
| ValidationUtils.IsValidEquipmentId | src/utils/ValidationUtils.java:12-14 | body: `E` followed by three or more ASCII digits; `GeneratedIdsAreValid` and `ValidIdsAreScanned` relate it to the allocators |
| ValidationUtils.IsValidRentalId | src/utils/ValidationUtils.java:16-18 | body: `R` followed by three or more ASCII digits; related as above |
| ValidationUtils.IsValidUserId | src/utils/ValidationUtils.java:32-34 | body: the trimmed ID is `A` or `C` followed by three or more ASCII digits; `GeneratedIdsAreValid` covers both prefixes |
| ValidationUtils.ValidIdsAreScanned | src/utils/ValidationUtils.java:6-18 | an ID passes the equipment or rental validator exactly when it is four or more characters long and the allocators' scan reads a suffix from it |
| ValidationUtils.IsValidCustomerName | src/utils/ValidationUtils.java:20-22 | body: the trimmed name is at least 2 UTF-16 units long |
| ValidationUtils.IsValidRentDays | src/utils/ValidationUtils.java:24-26 | body: 1 to 365 days inclusive |
| ValidationUtils.IsValidRentRate | src/utils/ValidationUtils.java:28-30 | body: a rate from 0 to 10000 inclusive |
| ValidationUtils.IsValidPassword | src/utils/ValidationUtils.java:44-46 | body: 6 to 50 UTF-16 units, untrimmed |
| ValidationUtils.IsValidFullName | src/utils/ValidationUtils.java:48-50 | body: 2 to 100 UTF-16 units after trimming |
| ValidationUtils.LengthLimitsCountUtf16Units | src/utils/ValidationUtils.java:44-50 | 26 emoji are too long for a password and 25 fit; one emoji is a long enough customer name, and 51 are too long for a full name |
| ValidationUtils.IsValidUsername | src/utils/ValidationUtils.java:36-38 | body: the trimmed name is 3 to 20 characters of `[a-zA-Z0-9._-]`; `SanitizedUsernameIsValid` relates it to the sanitiser |
| ValidationUtils.IsValidEmail | src/utils/ValidationUtils.java:40-42 | body: the trimmed address is a non-empty `[A-Za-z0-9+_.-]` part, the first '@', then a non-empty rest without line terminators; `EmailShape` and `EmailSplits` give both directions |
| ValidationUtils.IndexOf | src/utils/ValidationUtils.java:10 | the first index of the character, or the length when absent |
| ValidationUtils.EmailShape | src/utils/ValidationUtils.java:10 | a non-empty local part of `[A-Za-z0-9+_.-]`, '@' and a non-empty rest with no line terminator and a last character trim keeps form a valid address (the exact converse of `EmailSplits`) |
| ValidationUtils.EmailSplits | src/utils/ValidationUtils.java:40-42 | conversely, a valid address, once trimmed, splits at its first '@' into a non-empty local part of those characters and a non-empty rest with no line terminator whose last character trim keeps |
| ValidationUtils.RegexSpaceIsTrimmable | src/utils/ValidationUtils.java:56-57 | every `\s` character is one that `trim` removes |
| ValidationUtils.BlankCsvBreakers | src/utils/ValidationUtils.java:55 | each comma, CR and LF becomes a space; all else is kept in place |
| ValidationUtils.SkipSpaces | src/utils/ValidationUtils.java:56 | drops a leading `\s` run: a suffix of the input that starts with a non-space |
| ValidationUtils.CollapseSpaces | src/utils/ValidationUtils.java:56 | no two adjacent `\s` remain, a leading space survives exactly when there was one, and only spaces or input characters appear |
| ValidationUtils.CollapseSpacesKeepsNonSpaces | src/utils/ValidationUtils.java:56 | every character other than `\s` survives collapsing, in order |
| ValidationUtils.SkipSpacesKeepsNonSpaces | src/utils/ValidationUtils.java:56 | dropping a leading `\s` run drops no other character |
| ValidationUtils.CollapsedSpacesArePlain | src/utils/ValidationUtils.java:56 | every `\s` left after collapsing is a plain space |
| ValidationUtils.CollapseSpacesKeepsPlainSpaces | src/utils/ValidationUtils.java:56 | text with single plain spaces only collapses to itself |
| ValidationUtils.NoDoubleSpaceInfix | src/utils/ValidationUtils.java:57 | an infix of a string without double spaces has none |
| ValidationUtils.CollapsedHasNoBreakers | src/utils/ValidationUtils.java:55-56 | collapsing introduces no comma or line break |
| ValidationUtils.TrimKeepsSanitized | src/utils/ValidationUtils.java:57 | the final trim keeps both properties |
| ValidationUtils.SanitizeInput | src/utils/ValidationUtils.java:52-58 | the output has no comma, CR or LF, no leading or trailing whitespace, and no two adjacent whitespace characters; `SanitizeInputFixpoint` shows that text already in that form survives whole |
| ValidationUtils.TrimKeepsPlainSpaces | src/utils/ValidationUtils.java:57 | the final trim leaves only plain spaces as `\s` |
| ValidationUtils.SanitizeInputIsSanitized | src/utils/ValidationUtils.java:52-58 | the output is in sanitised form, with every `\s` a plain space as well |
| ValidationUtils.SanitizeInputFixpoint | src/utils/ValidationUtils.java:52-58 | sanitising leaves a string unchanged iff it is already in sanitised form, both directions |
| ValidationUtils.SanitizeInputIdempotent | src/utils/ValidationUtils.java:52-58 | sanitising twice is sanitising once |
| ValidationUtils.KeepUsernameChars | src/utils/ValidationUtils.java:62 | keeps only `[a-zA-Z0-9._-]` characters of the input, and all of an input made of them |
| ValidationUtils.SanitizeUsername | src/utils/ValidationUtils.java:60-63 | the output is lower-case and only `[a-z0-9._-]` |
| ValidationUtils.SanitizeUsernameIdempotent | src/utils/ValidationUtils.java:60-63 | sanitising twice equals sanitising once |
| ValidationUtils.SanitizedUsernameIsValid | src/utils/ValidationUtils.java:36-38 | a sanitised name of length 3 to 20 passes `isValidUsername` |
| ValidationUtils.ValidateUserRegistration | src/utils/ValidationUtils.java:65-84 | None (null) iff all four checks pass; otherwise the first failure's message, in the order username, password, full name, e-mail |
| UserModel.PasswordHash | src/models/User.java:55-57 | the digest is the pair of signed 32-bit `hashCode`s of password and username |
| UserModel.User.HashPassword | src/models/User.java:55-57 | body: `PasswordHash` of the password with this account's username |
| UserModel.User.VerifyPassword | src/models/User.java:59-61 | body: the password's digest equals the stored one, which by `TextInjective` is the source's string comparison |
| UserModel.User.CanLogin | src/models/User.java:80-82 | body: the account is Active; `Login` refuses every other status |
| UserModel.User.IsAdmin | src/models/User.java:84-86 | body: the role is Admin; `AdminIffNotCustomer` relates it to `IsCustomer` |
| UserModel.User.IsCustomer | src/models/User.java:88-90 | body: the role is Customer; `AdminIffNotCustomer` relates it to `IsAdmin` |
| UserModel.SplitAtSeparator | src/models/User.java:56 | text before a separator can be recovered from the joined string |
| UserModel.IntTextHasNoUnderscore | src/models/User.java:56 | a rendered `int` has no '_' |
| UserModel.PasswordDigest.Text | src/models/User.java:56 | body: `"HASH_"`, the password's hash code, '_' and the username's hash code; `TextInjective` shows distinct digests give distinct strings |
| UserModel.TextInjective | src/models/User.java:59-61 | stored hash strings are equal iff the digests are, so comparing strings is comparing digests |
| UserModel.PasswordHashCollides | src/models/User.java:55-61 | the placeholder collides: "Aa" and "BB" give the same hash, so either verifies for the other |
| UserModel.User.constructor | src/models/User.java:26-37 | a new account is active with no failed attempts, and its own password verifies |
| UserModel.User.Load | src/models/User.java:39-52 | a stored account keeps its hash, status and counter as given |
| UserModel.User.UpdatePassword | src/models/User.java:63-66 | the new password verifies and the counter is 0; the status is untouched |
| UserModel.User.RecordSuccessfulLogin | src/models/User.java:68-71 | the counter becomes 0 and nothing else changes |
| UserModel.User.RecordFailedLogin | src/models/User.java:73-78 | the counter grows by exactly one, the account locks at 3 and otherwise keeps its status, and the lock-out rule is preserved |
| UserModel.AdminIffNotCustomer | src/models/User.java:84-90 | `isAdmin` and `isCustomer` are exact complements |
| EquipmentModel.AvailableStatusIgnoresCase | src/models/Equipment.java:41-43 | available iff the status lower-cases to "available"; "Rented" and "Maintenance" are not available |
| EquipmentModel.IsAvailableStatus | src/models/Equipment.java:41-43 | body: `"Available".equalsIgnoreCase(status)`; `AvailableStatusIgnoresCase` characterises it |
| EquipmentModel.Equipment.IsAvailable | src/models/Equipment.java:41-43 | body: the item's current status passes `IsAvailableStatus` |
| EquipmentModel.Equipment.constructor | src/models/Equipment.java:10-16 | the four-argument form stores its fields and the category "General" |
| EquipmentModel.Equipment.WithCategory | src/models/Equipment.java:18-24 | the five-argument form stores all fields as given |
| EquipmentModel.Equipment.SetAvailability | src/models/Equipment.java:36 | only the availability changes |
| RentalModel.NewRental | src/models/Rental.java:15-24 | the constructor stores every field and sets the status "Active" |
| RentalModel.DaysOverdueIsClampedLateness | src/models/Rental.java:47-58 | days overdue is max(0, today − (start + days)); it is ≥ 0, > 0 iff overdue, and 0 when returned on or before the expected date |
| RentalModel.Rental.ExpectedReturnDate | src/models/Rental.java:47-49 | body: the start day plus the days rented |
| RentalModel.Rental.IsOverdue | src/models/Rental.java:51-53 | body: today is strictly after the expected date; `DaysOverdueIsClampedLateness` relates it to `DaysOverdue` |
| RentalModel.Rental.DaysOverdue | src/models/Rental.java:55-58 | body: 0 unless overdue, otherwise today minus the expected date; characterised by `DaysOverdueIsClampedLateness` |
| RentalModel.DaysOverdueStep | src/models/Rental.java:55-58 | once overdue, each further day adds one day overdue |
| ReturnRecordModel.ReturnRecord.constructor | src/models/ReturnRecord.java:11-17 | copies the transaction fields and the end date, with late fee 0, condition "Good" and amount due equal to the cost |
| ReturnRecordModel.ReturnRecord.SetLateFee | src/models/ReturnRecord.java:23 | only the fee changes, and the amount due becomes cost + fee |
| ReturnRecordModel.ReturnRecord.SetCondition | src/models/ReturnRecord.java:26 | only the condition changes |
| ReturnRecordModel.ReturnRecord.FinalAmount | src/models/ReturnRecord.java:28-30 | body: cost plus late fee; the constructor and `SetLateFee` state its value after each |
| Authentication.FindUserIndex | src/services/AuthenticationService.java:125-130 | the first account whose username equals the argument ignoring case, none before it |
| Authentication.AppendKeepsDistinctUsernames | src/services/AuthenticationService.java:142-149 | appending a username that matches none keeps usernames distinct up to case |
| Authentication.DefaultAccounts | src/services/AuthenticationService.java:24-36 | exactly A001 admin, C001 john.doe and C002 jane.doe, active, with no failed attempts, each verifying its seeded password |
| Authentication.DefaultUsernamesDistinct | src/services/AuthenticationService.java:27-32 | the seeded usernames differ even ignoring case |
| Authentication.DefaultAccountsInvariants | src/services/AuthenticationService.java:24-36 | the seeded accounts have distinct usernames and obey the lock-out rule |
| Authentication.AuthenticationService.constructor | src/services/AuthenticationService.java:12-22 | nobody is logged in; stored accounts are kept, and an empty store gets the defaults with both invariants |
| Authentication.AuthenticationService.FindUserByUsername | src/services/AuthenticationService.java:125-130 | null iff no username matches ignoring case; otherwise a listed match |
| Authentication.AuthenticationService.Login | src/services/AuthenticationService.java:45-83 | the checks in order (blank username, blank password, unknown, locked or inactive, wrong password). Every failure leaves the session unchanged. Only a wrong password changes an account: +1 and a lock at 3, flagged in the message. Success resets the counter and opens the session on that account |
| Authentication.AuthenticationService.Logout | src/services/AuthenticationService.java:85-90 | the session is empty afterwards |
| Authentication.RoleGates | src/services/AuthenticationService.java:92-106 | without a session both role gates are closed; with one, exactly one is open |
| Authentication.AuthenticationService.IsLoggedIn | src/services/AuthenticationService.java:92-94 | body: a session is open; `RoleGates` relates the three gates |
| Authentication.AuthenticationService.IsCurrentUserAdmin | src/services/AuthenticationService.java:100-102 | body: a session is open on an administrator |
| Authentication.AuthenticationService.IsCurrentUserCustomer | src/services/AuthenticationService.java:104-106 | body: a session is open on a customer |
| Authentication.AuthenticationService.UnlockUserAccount | src/services/AuthenticationService.java:114-123 | true iff the account exists and is locked; then it is active with counter 0; otherwise nothing changes |
| Authentication.AuthenticationService.ChangePassword | src/services/AuthenticationService.java:132-140 | true iff the account exists and the old password verifies; then the new one verifies, the counter is 0 and the status is kept; otherwise nothing changes |
| Authentication.AuthenticationService.GenerateCustomerId | src/services/AuthenticationService.java:154-167 | `C` + `%03d`(max C-suffix + 1), an ID no account has |
| Authentication.AuthenticationService.AppendUser | src/services/AuthenticationService.java:149 | the account is appended, keeping distinct usernames and the lock-out rule |
| Authentication.AuthenticationService.RegisterCustomer | src/services/AuthenticationService.java:142-152 | false with no change iff the username exists ignoring case; otherwise exactly one fresh active customer with the next C-ID and a verifying password, both invariants kept |
| Authentication.LockoutScenario | src/services/AuthenticationService.java:60-76 | three wrong passwords give "Invalid password" twice, then the lock notice, after which the right password is refused as locked |
| Authentication.UnlockScenario | src/services/AuthenticationService.java:114-123 | a locked account refuses its password until unlocked, then logs in |
| Ledger.RentedMeansOneOpenRental | src/services/RentalService.java:248-254 | under consistency, an item is Rented iff some open rental names it, and at most one does |
| Ledger.RentKeeps | src/services/RentalService.java:248-254 | opening a fresh rental on an available item and marking it Rented keeps consistency |
| Ledger.CloseKeeps | src/services/RentalService.java:299-301 | closing a rental and moving its ID to the history with a non-Rented status keeps consistency |
| Ledger.AddKeeps | src/services/RentalService.java:78-86 | adding a new ID that is not Rented keeps consistency |
| Ledger.RemoveKeeps | src/services/RentalService.java:136-153 | removing an item no open rental names keeps consistency |
| Ledger.StatusKeeps | src/services/RentalService.java:125-134 | a status edit that keeps Rented-ness keeps consistency |
| Ledger.StatusCanBreak | src/services/RentalService.java:125-134 | marking an unrented item Rented breaks consistency |
| Ledger.CounterStartAbove | src/services/RentalService.java:31-60 | the initial counter is above every rental-ID suffix in use |
| Ledger.RentKeepsCounter | src/services/RentalService.java:249 | the issued ID is unused, and after `rentalCounter++` the counter is again above every suffix |
| Ledger.CloseKeepsCounter | src/services/RentalService.java:299-300 | closing a rental keeps the counter above every suffix |
| Rentals.LateFee | src/services/RentalService.java:282-287 | the fee is ≥ 0, positive iff overdue, and then 50 per day past the expected date |
| Rentals.ForceReturnStatus | src/services/RentalService.java:352-356 | Maintenance iff the condition equals "Damage" or "Lost" ignoring case, Available otherwise |
| Rentals.RentalCost | src/services/RentalService.java:248 | body: the daily rate times the days; `RentEquipment` states that the rental's cost is this |
| Rentals.IsDamageOrLost | src/services/RentalService.java:352 | body: the condition equals "Damage" or "Lost" ignoring case; `ForceReturnStatus` maps it to Maintenance |
| Rentals.FindEquipmentIndex | src/services/RentalService.java:118-123 | the first catalogue index with the ID, none before it |
| Rentals.FindRentalIndex | src/services/RentalService.java:379-384 | the first open-rental index with the ID, none before it |
| Rentals.RentalsOf | src/services/RentalService.java:413-426 | a rental is listed iff it is open and belongs to the customer; the `Count` and `Append` lemmas add multiplicity and order |
| Rentals.RentalsOfCount | src/services/RentalService.java:423-425 | each rental of the customer appears exactly as often as in the input, and every other rental not at all |
| Rentals.RentalsOfAppend | src/services/RentalService.java:423-425 | the filter keeps order: filtering a concatenation filters each part in turn |
| Rentals.ReturnsOf | src/services/RentalService.java:428-441 | exactly the customer's return records are listed |
| Rentals.ReturnsOfCount | src/services/RentalService.java:438-440 | each record of the customer appears exactly as often as in the input, and every other record not at all |
| Rentals.ReturnsOfAppend | src/services/RentalService.java:438-440 | the filter keeps order: filtering a concatenation filters each part in turn |
| Rentals.OverdueRentals | src/services/RentalService.java:443-449 | a rental is listed iff it is open and overdue; the `Count` and `Append` lemmas add multiplicity and order |
| Rentals.OverdueRentalsCount | src/services/RentalService.java:446-448 | each overdue rental appears exactly as often as in the input, and every other rental not at all |
| Rentals.OverdueRentalsAppend | src/services/RentalService.java:446-448 | the filter keeps order: filtering a concatenation filters each part in turn |
| Rentals.MatchesSearch | src/services/RentalService.java:214-218 | body: the lower-cased term is in the lower-cased name, ID or category; `SearchMatches` keeps exactly the items it accepts |
| Rentals.SearchMatches | src/services/RentalService.java:211-220 | exactly the items whose lower-cased name, ID or category contains the lower-cased term |
| Rentals.SearchMatchesCount | src/services/RentalService.java:215-219 | each matching item appears exactly as often as in the catalogue, and every other item not at all |
| Rentals.SearchMatchesAppend | src/services/RentalService.java:215-219 | the filter keeps order: filtering a concatenation filters each part in turn |
| Rentals.FirstIssuedIds | src/services/RentalService.java:88-100 | on an empty store the allocators issue E101, R001 and C001 |
| Rentals.RentalService.constructor | src/services/RentalService.java:19-23 | the loaded lists are kept, and the counter is one past the largest R-suffix in either list |
| Rentals.RentalService.InitializeRentalCounter | src/services/RentalService.java:31-60 | the counter is one past the largest R-suffix of the open rentals followed by the returns (1 if none), hence above all of them |
| Rentals.RentalService.FindEquipmentById | src/services/RentalService.java:118-123 | null iff no item has the ID; otherwise the first item with it |
| Rentals.RentalService.FindRentalById | src/services/RentalService.java:379-384 | none iff no open rental has the ID; otherwise the first |
| Rentals.RentalService.RequireAdminAccess | src/services/RentalService.java:62-68 | body: the session is an administrator's |
| Rentals.RentalService.RequireAuthentication | src/services/RentalService.java:70-76 | body: a session is open |
| Rentals.RentalService.GenerateEquipmentId | src/services/RentalService.java:88-101 | `E` + `%03d`(max(100, max E-suffix) + 1), an ID no item has |
| Rentals.RentalService.AddEquipment | src/services/RentalService.java:78-86 | succeeds iff the session is an administrator; then exactly one fresh Available item with the next E-ID is appended; consistency is kept |
| Rentals.RentalService.AppendEquipment | src/services/RentalService.java:83 | the item is appended and consistency is kept |
| Rentals.RentalService.UpdateEquipmentStatus | src/services/RentalService.java:125-134 | true iff an administrator names an existing item; only that item's status changes; consistency is kept when Rented-ness is |
| Rentals.RentalService.SetStatus | src/services/RentalService.java:132 | exactly the item's entry in the status list changes |
| Rentals.RentalService.RemoveEquipment | src/services/RentalService.java:136-153 | true iff an administrator names an existing item with no open rental; then exactly that item is removed, otherwise nothing changes |
| Rentals.RentalService.RentEquipment | src/services/RentalService.java:229-260 | the five refusals in order with no change; on success exactly one rental is appended (next R-ID, the customer, today, the days, cost = rate × days), the counter grows by one, only that item changes (to Rented), and the ID is fresh |
| Rentals.RentalService.OpenRental | src/services/RentalService.java:248-254 | appends the rental under a fresh ID, advances the counter, marks the item Rented, and keeps both invariants |
| Rentals.RentalService.CloseRecord | src/services/RentalService.java:282-297 | a fresh record copying the rental, ending today, with its late fee and the given condition |
| Rentals.RentalService.MayReturn | src/services/RentalService.java:270-274 | body: a session is open, and a customer's session only on the customer's own rental; `ReturnEquipment` refuses with `NotOwnRental` when it fails |
| Rentals.RentOutcome.Message | src/services/RentalService.java:230-259 | body: the source's literal result string for each outcome, up to the formatted cost; `RentEquipment` states which outcome each case gives |
| Rentals.ReturnOutcome.Message | src/services/RentalService.java:263-311 | body: the literal result string for each outcome, up to the formatted amounts; `ReturnEquipment` states which outcome each case gives |
| Rentals.ForceReturnOutcome.Message | src/services/RentalService.java:317-365 | body: the literal result string for each outcome, up to the optional fee line; `ForceReturnEquipment` states which outcome each case gives |
| Rentals.RentalService.ReturnEquipment | src/services/RentalService.java:262-314 | the refusals in order with no change; customers only their own rentals, administrators any; on success one record (condition "Good", the late fee), that rental alone removed, the item Available, the amount cost + fee |
| Rentals.RentalService.ForceReturnEquipment | src/services/RentalService.java:316-368 | administrators only, no ownership check; the record keeps the condition; the item goes to Maintenance iff Damage/Lost; the extra fees reach only the outcome |
| Rentals.RentalService.CloseRental | src/services/RentalService.java:299-301 | appends the record, removes the rental at its index, sets the status, and keeps both invariants |
| Rentals.RentalService.CloseIdsMove | src/services/RentalService.java:299-300 | closing moves exactly one ID from the open list to the end of the history, and the counter stays valid |
| Rentals.RentalService.RentIssuesFreshId | src/services/RentalService.java:249-252 | the issued rental ID is unused and the counter stays valid |
| Rentals.RentalService.GetActiveRentals | src/services/RentalService.java:386-398 | empty without a session; all open rentals for an administrator; exactly the customer's own for a customer, as `RentalsOf` |
| Rentals.RentalService.GetCustomerRentals | src/services/RentalService.java:413-426 | a customer always gets their own, whatever ID is asked; an administrator gets the asked customer's; both are `RentalsOf` the open list |
| Rentals.RentalService.GetCustomerHistory | src/services/RentalService.java:428-441 | the same scoping over the return records |
| Rentals.RentalService.GetOverdueRentals | src/services/RentalService.java:443-449 | administrators only: exactly the open overdue rentals, as `OverdueRentals` |
| Rentals.RentalService.SearchEquipment | src/services/RentalService.java:211-220 | empty without a session; otherwise exactly the matching items |
| Rentals.RentReturnScenario | src/services/RentalService.java:229-314 | E101 at 20 a day for 3 days gives R001 at 60; a return within the window costs 60, and each later day adds 50 |
| Rentals.CustomerSession | src/services/AuthenticationService.java:78-82 | a correct login opens the session on that customer |
| Rentals.RentStep | src/services/RentalService.java:248-254 | a first rental on an empty store is R001 and costs rate × days |
| Rentals.StockedService | src/services/RentalService.java:19-60 | a service loaded with one available item and no rentals or returns starts its counter at 1 |

## Left out

- File persistence (`FileHandler`, `UserFileHandler`): the loaded lists are constructor arguments and every save is a no-op, so the `%.2f` CSV round trip is not modelled.
- The console front end (`ConsoleUI`), `Main`, `ReportGenerator` and `System.out`/`System.err` logging are presentation only. The positive-rate check for new equipment exists only in the console, so `addEquipment` does not check the rate here either.
- The clock: `LocalDate.now()` is a `today` argument (an epoch day). The source reads the clock afresh at each step of one call: the overdue test, the days overdue and the return date in `returnEquipment`, and the start date in `rentEquipment`. The model uses one `today` per call, so a call that runs across midnight is not modelled. `lastLogin` and `createdDate` are not modelled.
- Floating point: rates, costs and fees are exact `real`s, not rounded `double`s. Messages are outcome datatypes whose text stops before each `%.2f` amount.
- `synchronized` on `generateEquipmentId`: the model is sequential.
- Java `null` arguments: strings are never null here, so a validator's `null` branch has no counterpart. `login`'s `null` check is covered by the blank check.
- `Integer.parseInt` of an ID suffix (`Strings.ParseDigits`, read by `Ids.SuffixOf`) differs from Java in three ways.
  - **Long suffixes.** The model parses a run of ASCII digits of any length. Java throws on a value beyond `Integer.MAX_VALUE` and skips that ID. So after a stored `R99999999999`, Java leaves its counter alone while the model issues `R100000000000`.
  - **Signs.** Java accepts a leading '+' or '-', and the model skips such an ID.
  - **Non-ASCII digits.** Java accepts any Unicode decimal digit, and the model accepts ASCII digits only.
  - The model's issued IDs stay fresh in every case. Its numbers are unbounded, so no allocator models Java's 32-bit overflow. This covers `rentalCounter++`, and `maxId + 1` in `generateEquipmentId` (src/services/RentalService.java:100) and `generateCustomerId` (src/services/AuthenticationService.java:166). After a stored `E2147483647`, Java issues `E-2147483648` where the model issues `E2147483648`.
- Case mapping covers ASCII letters only. `Strings.HashCode` folds over Unicode characters where Java folds over UTF-16 units, so the two agree only on text inside the Basic Multilingual Plane. The `length()` checks do count UTF-16 units. `trim`, `equalsIgnoreCase` and `contains` give the same answers in both readings.
- UserModel.User.Load: a stored hash is a `PasswordDigest`, so a stored string not of the form `HASH_<int>_<int>` cannot be represented.
- Rental setters are never called by the core, so `Rental` is an immutable value, and `rentals.remove(rental)` removes the index `findRentalById` found.
- `setUserId`, `setUsername` and the other setters the core does not call are not modelled; `setStatus`/`setFailedLoginAttempts` appear only inside `unlockUserAccount`.
- Queries outside the core are not modelled: `getAvailableEquipment`, `getAllEquipment`, `getAllReturns`, `getRentalsByDateRange`, `getReturnsByDateRange`, `getEquipmentByCategory`, `getAllCategories`, `calculatePotentialLateFees`, `getEquipmentSortedByPrice`, `findCustomerById`, `getAllActiveRentals`, `getDailyRentals`, the revenue and statistics methods, `getCurrentUserRentalSummary`, `refreshData`, `getSystemStatus` and `getAllUsers`.
- Rentals.RentalService.UpdateEquipmentStatus: consistency is promised only for an edit that keeps the item's Rented-ness, because the source lets an administrator set any status.
