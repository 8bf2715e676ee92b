# AqBanking in Dafny

This project models the parts of AqBanking whose correctness is not plain from reading one function, and
proves what they promise. Where the code changes things step by step the model does too: loops write into
arrays and buffers, queues are objects that are moved between lists, settings are kept in a store with
locks whose calls may fail. Each such method is proved against a specification on values, and the
properties are lemmas about that specification.

* `Iban`, `GermanIban`, `IbanErrors`, `IbanExamples`, with `Decimal`, `Mod97`, `CStrings` and `Seqs`: checking
  and making IBANs (ISO 13616-1 with the MOD 97-10 system of ISO/IEC 7064), and which typing errors are found.
* `UniqueIds`, `JobIds`, `Dispatch`, `Delivery`, `SendCommands`, with `Queues` and `Grouping`: job ids, and
  commands on their way through account queues, provider queues and user queues.
* `ConfigMgr`, `ConfigGroups`, `Providers`, with `Db` and `Ascii`: the store of settings groups, its locks,
  and the use of backends. What a call that may fail answers is fixed in advance by a list of results, so a
  statement about all lists is one about all patterns of failure.
* `Renaming`, `Rewriting`, `AccountUpdate`, `Migration`, `UpdateRuns`: updating old settings.
* `Bcd`, `MsgBuffer`, `MsgNumbers`, `Tlv`: fields of binary messages, and tag-length-value elements in the
  forms of sections 8.1.2 and 8.1.3 of ITU-T X.690.
* `Utf8`, `Dta`, `Latin1`, `Sepa`, `Flags`: text in several alphabets (UTF-8 as in sections 3 and 4 of
  RFC 3629), and sets of flags stored as names.
* `Lifecycle`: initialising and ending, counted per object and for the whole process.
* `Fuzzy`, `FuzzyLaws`: the rough comparison of bank names in `mkdeinfo`.

## What turned out not to hold

* A letter and a digit that stand side by side, both before the end of the check digits or both behind it, can
  change places in an IBAN without being found when they are 1 and B, 2 and M, or 3 and X. The last check digit
  and the first character of the account number do so in other cases, two digits exactly if the whole number has
  97 or 193 digits.
  `IbanErrors.SwapDecides` and `IbanErrors.SwappedDigits` show that there are no other cases.
* A part of 31 digits is refused by the IBAN generator when a blank follows, although blanks need no room
  (`GermanIban.BlankRefused`); the checker never minds (`Iban.BlankIgnored`).
* Job ids need not be distinct. They are, exactly if the ids that commands brought along are, none of them
  is given again in the run, and no two commands were refused one with the same code, for they get the
  error code as id (`JobIds.IdsDistinctExactly`, for counters from 0 to 2^31; `JobIds.IdsForetold` for runs
  without errors).
* Renaming settings groups loses a group when two with different contents, for example two with one id, are
  to get one name, or when its new name is still in use by a group that is renamed later or never
  (`Renaming.RenamingWorksWhenRestored`, `Renaming.SafeExactlyWhenClear`). What is proved of an update holds
  for stores without such groups (`UpdateRuns.StoreReady`); for others there is an order of listing in which
  a group is lost (`Rewriting.NotReadyLoses`).
* An update is refused when there is no account or no user with an id, even if nothing fails
  (`UpdateRuns.Update`).
* When an update has set the user ids, the next one sets them again, to 0. A next one comes if the first
  one stopped, or if the version was not stored since `Fini` failed or never came
  (`UpdateRuns.RepeatedUpdateForgetsUsers`).
* Words and double words with the least byte first are read back only if they fit one byte
  (`MsgNumbers.ReadBackExact`).
* In DTA text a character of two bytes is judged by its second byte only, so a foreign letter becomes a
  German one exactly if their last six bits agree (`Dta.RightExactly`, `Dta.ForeignLetter`).
* The abbreviations of `mkdeinfo` are expanded to capitals and never match a name, which is put in small
  letters (`Fuzzy.AbbreviationsUnlike`).

## Model

| member | source | states |
|---|---|---|
| `Iban.TransformIban` | src/libs/aqbanking/banking_bankinfo.c:131-181 | succeeds exactly for text of letters, digits and blanks whose digits fit the area with room before every character; then the area holds the NUL-terminated expansion, and what stood before it is untouched |
| `Iban.Remainder` | src/libs/aqbanking/banking_bankinfo.c:220-237 | the chunk loop, which ends for digit strings of any length with the value of the whole string modulo 97 |
| `Iban.ChunkRemainder` | src/libs/aqbanking/banking_bankinfo.c:220-237 | carried remainder and next chunk stay below 10^9 and leave the same remainder as everything consumed so far |
| `Iban.CheckIban` | src/libs/aqbanking/banking_bankinfo.c:185-246 | -1 for text that is no IBAN, else 0 or 1 as the rearranged number of up to 255 digits leaves 1 modulo 97 or not; what each character counts as is said by the next rows |
| `Iban.RefusedExactly` | src/libs/aqbanking/banking_bankinfo.c:131-218 | text without blanks gives -1 exactly if it has fewer than five characters, does not start with two capitals, holds anything but letters and digits, or takes more than 255 digits |
| `Iban.LetterDigits` | src/libs/aqbanking/banking_bankinfo.c:146-157 | letter number i of the alphabet, as a capital and as a small letter, stands for the two decimal digits of 10 + i, for each of the 26 |
| `Iban.OtherDigits` | src/libs/aqbanking/banking_bankinfo.c:141-171 | a digit stands for itself, a blank for nothing, and no other character is taken |
| `Iban.CaseIgnored` | src/libs/aqbanking/banking_bankinfo.c:131-246 | a letter behind the country code may be a capital or small: the result is the same, whatever the text |
| `IbanExamples.BritishIban` | src/libs/aqbanking/banking_bankinfo.c:185-246 | GB82WEST12345698765432 gives 0, by value |
| `IbanExamples.GermanExample` | src/libs/aqbanking/banking_bankinfo.c:250-329 | bank code 37040044 and account 0532013000 make DE89370400440532013000, which gives 0 |
| `Iban.BlankIgnored` | src/libs/aqbanking/banking_bankinfo.c:131-246 | a blank behind the text never changes the result of the check |
| `Iban.BlankNeedsRoom` | src/libs/aqbanking/banking_bankinfo.c:131-181 | text that fits an area fits with a blank behind it exactly if it leaves room for one digit more |
| `Mod97.ShiftCancels` | src/libs/aqbanking/banking_bankinfo.c:185-246 | 97 divides d*10^k only if it divides d, at every position k |
| `Mod97.BlockDecides` | src/libs/aqbanking/banking_bankinfo.c:185-246 | two numbers that agree outside one block of digits agree modulo 97 exactly when the blocks do |
| `Mod97.OrderOfTen` | src/libs/aqbanking/banking_bankinfo.c:185-246 | 10^k leaves 1 modulo 97 exactly for multiples of 96, which decides how far apart two digits must stand to change places unnoticed |
| `IbanErrors.ReplacementDecides` | src/libs/aqbanking/banking_bankinfo.c:185-246 | replacing a stretch of a valid IBAN, before or behind the end of the check digits, by letters and digits of the same expanded length keeps it valid exactly when the stretches agree modulo 97; otherwise the result is 1 |
| `IbanErrors.ReplacementAcross` | src/libs/aqbanking/banking_bankinfo.c:185-246 | replacing a stretch that reaches across the end of the check digits by any other text that can be read keeps a valid IBAN valid exactly when a congruence holds of the old and new parts on both sides and the number of digits between them; otherwise the result is 1 |
| `IbanErrors.WrongCharacterFound` | src/libs/aqbanking/banking_bankinfo.c:185-246 | one digit typed for another, or one letter for a different one, always gives 1, at any place, as long as the country code stays in capitals |
| `IbanErrors.SwapDecides` | src/libs/aqbanking/banking_bankinfo.c:185-246 | two swapped neighbouring letters or digits are found except exactly: on one side of the fourth place, equal ones and the pairs 1/B, 2/M and 3/X; on both sides of it, those that satisfy a congruence on the two characters and the number of digits |
| `IbanErrors.HiddenPairs` | src/libs/aqbanking/banking_bankinfo.c:185-246 | the pairs that SwapDecides excepts on one side are, written out: equal characters, a letter as a capital and small, 1 and B, 2 and M, 3 and X |
| `IbanErrors.SwappedDigits` | src/libs/aqbanking/banking_bankinfo.c:185-246 | two different neighbouring digits change places unnoticed exactly if they are the last check digit and the first digit of the account number and the whole number has 97 or 193 digits; so never in a number of at most 96 |
| `IbanErrors.SameKindEnds` | src/libs/aqbanking/banking_bankinfo.c:185-246 | the congruence for two letters or two digits: they count the same, or the number without the last of them has a multiple of 96 digits |
| `IbanErrors.HiddenBoundaryExample` | src/libs/aqbanking/banking_bankinfo.c:185-246 | a concrete valid IBAN of 97 digits in which the last check digit 1 and the first account digit 5 can change places without being found |
| `IbanErrors.HiddenSwapExample` | src/libs/aqbanking/banking_bankinfo.c:185-246 | a concrete valid IBAN in which 1 and B can change places without being found |
| `GermanIban.MakeGermanIban` | src/libs/aqbanking/banking_bankinfo.c:250-329 | succeeds exactly when both parts fit 31 digits, and appends a text that the checker accepts and that spells, position by position, DE, two check digits, zeros and the bank code in at least eight places, zeros and the account number in at least ten |
| `GermanIban.MadeIbanSpells` | src/libs/aqbanking/banking_bankinfo.c:250-329 | the made IBAN spells its parts: behind the fourth place the bank code ends at place 12, or later if it is longer, the account number ends the text, and in front of each are only the zeros that fill its field |
| `GermanIban.SpelledOnce` | src/libs/aqbanking/banking_bankinfo.c:281-303 | two pairs of parts are spelled by one IBAN only if, for bank codes of at most eight characters, bank codes and account numbers are the same but for zeros in front |
| `GermanIban.CheckedNumber` | src/libs/aqbanking/banking_bankinfo.c:281-314 | the number that is checked is the number with 00 as check digits plus the check digits, since expanding distributes over joining |
| `GermanIban.AcceptedCheckDigits` | src/libs/aqbanking/banking_bankinfo.c:185-246 | for every account number: the text is no IBAN if the number is empty, holds other characters or expands to more than 249 digits; else the checker accepts exactly the check digits congruent to 98 minus the open remainder |
| `GermanIban.MadeIbanIsValid` | src/libs/aqbanking/banking_bankinfo.c:250-329 | whatever the generator makes, of any length and with letters and blanks, the checker accepts, and its check digits are 02 to 98 |
| `GermanIban.BlankRefused` | src/libs/aqbanking/banking_bankinfo.c:262-314 | a part of 31 digits is taken, but refused with a blank behind it |
| `GermanIban.OnlyOneCheckInRange` | src/libs/aqbanking/banking_bankinfo.c:250-329 | in that range no other check digits are accepted |
| `UniqueIds.GetNamedUniqueId` | src/libs/aqbanking/banking.c:186-260 | without an error issues the next id of the name and stores the counter, else hands out the first error there was; there is none if no call fails and the lock is free; the lock stays behind exactly when the read or an unlock fails |
| `UniqueIds.IdIssued` | src/libs/aqbanking/banking.c:186-260 | for every name: the id is one more than the counter in variable uniqueid-NAME, or than the shared one in uniqueId for the empty name and for the first id of a name that starts there; every counter it was drawn for then holds it, and no other variable changes |
| `UniqueIds.JobIdIssued` | src/libs/aqbanking/banking_online.c:770-773 | a job id is one more than the variable uniqueid-jobid of group uniqueId of aqbanking, or than the shared counter if that is 0, and is kept there |
| `UniqueIds.ReserveJobId` | src/libs/aqbanking/banking_online.c:770-773 | a job id is the next id of the name jobid as unsigned 32 bits, or the first error there was; there is none if no call fails and the lock is free |
| `UniqueIds.IdsIncrease` | src/libs/aqbanking/banking.c:186-260 | over any run of calls the ids of one name are positive and strictly increasing |
| `UniqueIds.SharedIdsIncrease` | src/libs/aqbanking/banking.c:186-260 | ids drawn from the shared counter increase whatever the names they were drawn for |
| `UniqueIds.LateNameStaysAbove` | src/libs/aqbanking/banking.c:186-260 | a name first used with a start at the shared counter gets only ids above all that counter had issued before |
| `JobIds.AssignJobId` | src/libs/aqbanking/banking_online.c:644-651 | a preset id is kept; without an error a fresh id is the advanced counter, with one it is the error code; no error arises if no call fails and the lock is free |
| `JobIds.FailingStoreDoublesIds` | src/libs/aqbanking/banking_online.c:644-651 | a run in which two commands get the same job id because the id store failed for both with the same code |
| `JobIds.IdsDistinctExactly` | src/libs/aqbanking/banking_online.c:608-655 | from any ids before the run, as long as counters are not negative and ids stay below 2^31: the ids of the commands are distinct if and only if those brought along were, none of them was given again in the run, and no two commands were refused one with the same code |
| `JobIds.IdsForetold` | src/libs/aqbanking/banking_online.c:608-655 | if no error arises this can be told before the run: ids are distinct exactly when those brought along are and none of them is among the next numbers of the counter, as many as there are commands without one |
| `JobIds.GoodStart` | src/libs/aqbanking/banking_online.c:608-655 | if all ids before the run are distinct and none is above the counter, all ids stay distinct but those of refused commands, and these are so exactly as far as their codes are |
| `Dispatch.Take` | src/libs/aqbanking/banking_online.c:636-655 | the command gets its id and status and goes to the end of the queue of its account, which is made when there is none; the id is fresh exactly as for one command |
| `Dispatch.SortCommandsByAccounts` | src/libs/aqbanking/banking_online.c:608-670 | after a result of 0 every command whose status was unknown, none or enqueued is enqueued, is in the queue of its account and, when no counter is negative and ids stay below 2^32, has an id that is not 0; a command of any other status is unchanged and in no new queue; the account queues are the grouping by account, in input order, up to the first such command without account; each keeps its id, or was issued one of its own that the counter passed, or was refused one for a new error and has its code; and the ids are distinct exactly as JobIds.IdsDistinctExactly and JobIds.IdsForetold say |
| `Dispatch.RouteOne` | src/libs/aqbanking/banking_online.c:686-708 | an account queue is refused exactly if its account cannot be read or has no backend; otherwise there is a queue of that backend on the list, and no other was added |
| `Dispatch.MoveFirst` | src/libs/aqbanking/banking_online.c:684-712 | one account queue leaves its list and is at the end of the queue of its backend |
| `Dispatch.SortAccountQueuesByProvider` | src/libs/aqbanking/banking_online.c:674-716 | moved queues and waiting queues are together the old list in order; the provider queues are the grouping of the moved ones by backend; it stops exactly at the first one without backend |
| `Dispatch.GiveToUser` | src/libs/aqbanking/backendsupport/provider_queues.c:30-66 | an account queue is refused with the code of the failed lookup or for want of a user; otherwise there is a queue of its user on the list, and no other was added |
| `Dispatch.RefusedExactly` | src/libs/aqbanking/backendsupport/provider_queues.c:30-66 | an account queue is given to a user exactly if its account can be read and names a user that has a queue already or can be read |
| `Dispatch.GiveFirst` | src/libs/aqbanking/backendsupport/provider_queues.c:30-72 | one account queue leaves its list and is at the end of the queue of its user |
| `Dispatch.SortProviderQueueIntoUserQueueList` | src/libs/aqbanking/backendsupport/provider_queues.c:18-74 | the same for users: nothing is lost between the list and the user queues, which are the grouping by user, and the result is the reason of the first refusal |
| `Delivery.PlacedRight` | src/libs/aqbanking/banking_online.c:608-716 | every account queue found anywhere is at its own backend and user and holds exactly the commands of its account in input order |
| `Delivery.OneQueuePerKey` | src/libs/aqbanking/banking_online.c:608-716 | no two provider queues share a name, no two user queues of a provider share a user |
| `Delivery.Delivered` | src/libs/aqbanking/banking_online.c:608-716 | every command is in the queue of its account, at the user and the backend of that account |
| `Delivery.AllConserved` | src/libs/aqbanking/banking_online.c:608-716 | the user queues together hold every command just as often as it was given |
| `Grouping.GroupMembers` | src/libs/aqbanking/banking_online.c:637-655 | the members of a group are those it had, then the new ones of its key in order |
| `Grouping.GroupConserves` | src/libs/aqbanking/banking_online.c:637-655 | grouping keeps the multiset of all members |
| `SendCommands.MapEnqueueAll` | src/libs/aqbanking/banking_online.c:674-716 | grouping queues and then looking into them is grouping what they hold |
| `SendCommands.SortIntoProviderQueues` | src/libs/aqbanking/banking_online.c:564-604 | succeeds exactly if every command that is unknown, new or enqueued has an account and that a backend; then each of them is enqueued, has its id, and is in the queue of its account on the queue of the backend that the specification of that account names, and every other command is unchanged and in no queue; the provider queues hold exactly the grouping by account and backend |
| `SendCommands.UsersHold` | src/libs/aqbanking/backendsupport/provider_queues.c:18-74 | the user queues of a provider then hold exactly the grouping by user of what its provider queue held |
| `SendCommands.AllUsersHold` | src/libs/aqbanking/backendsupport/provider_queues.c:18-74 | when every provider has given all its queues to users, the user queues of all providers are the three groupings of the commands and together hold each command exactly as often as it was given |
| `SendCommands.CommandAtUser` | src/libs/aqbanking/backendsupport/provider_queues.c:18-74 | then every command is in the queue of its account, and that is on the queue of the user that the account itself names, at the provider that its specification names |
| `ConfigGroups.ReadNamedConfigGroup` | src/libs/aqbanking/banking_cfg.c:304-354 | on success the contents, with the lock taken and given back as asked; a failure leaves the locks as they were unless an unlock failed |
| `ConfigGroups.WriteNamedConfigGroup` | src/libs/aqbanking/banking_cfg.c:358-405 | the write happens completely or not at all; locks as for reading; a write with a negative result means that only the unlock failed |
| `ConfigGroups.WriteConfigGroup` | src/libs/aqbanking/banking_cfg.c:462-488 | writes under the derived name and leaves the locks as they were unless an unlock failed |
| `ConfigGroups.LockReadUnlockGroup` | src/libs/aqbanking/banking_cfg.c:626-653 | contents or nothing; locks balanced unless an unlock failed |
| `ConfigGroups.ReadGroupsFromStringList` | src/libs/aqbanking/banking_cfg.c:582-622 | exactly the wanted ones of the names that could be read, in order; partial if and only if some name could not, each of which left an error; not found exactly if all could and none was wanted |
| `ConfigGroups.WantedExactly` | src/libs/aqbanking/banking_cfg.c:657-680 | a group is wanted exactly if the id variable, if one is named, is not 0 and the first value of the variable to match, if one is named, is not empty and is the wanted text up to the case of letters |
| `Ascii.SameTextExactly` | src/libs/aqbanking/banking_cfg.c:667-669 | texts compare as the same exactly if they have one length and differ in nothing but the case of letters A to Z |
| `ConfigGroups.ReadConfigGroups` | src/libs/aqbanking/banking_cfg.c:542-578 | on success all groups of the kind were read, each once; if no error arises it succeeds exactly if some group is wanted, and reports not found otherwise; locks balanced unless an unlock failed |
| `Providers.BeginUseProvider` | src/libs/aqbanking/banking_online.c:183-214 | a usable provider if and only if the backend is compiled in and no error arises, which is so if no call fails and no lock is held; that the use began is the only thing that happens, and nothing does without a provider; the store is untouched and the locks are balanced unless an unlock failed |
| `Providers.EndUseProvider` | src/libs/aqbanking/banking_online.c:218-253 | the provider is freed exactly once and its use ends on every path; the result is 0 exactly if no error arose; locks balanced unless an unlock failed, and after a successful write even one failed unlock does no harm |
| `Providers.SendProviderQueue` | src/libs/aqbanking/banking_online.c:728-757 | if the backend can be used the use begins, the queue goes out whole, and the use ends, in this order; otherwise nothing happens, for which there was an error or no such backend |
| `Providers.SendProviderQueues` | src/libs/aqbanking/banking_online.c:720-765 | every queue is taken off the list; a selection of them, in order, makes a whole use each: only queues whose backend is compiled in, and each of these unless an error of its own stopped it, so all of them if there was none |
| `Providers.EventsOfQueue` | src/libs/aqbanking/banking_online.c:728-757 | such a run of uses, read off place by place: for queue number i the begin of its backend, the queue itself and the end of its backend, and nothing in between |
| `Migration.RenameGroup` | src/libs/aqbanking/banking_update.c:59-101 | one group: written under its derived name, then deleted under the old one, or a first part of that |
| `Migration.UpdateConfList` | src/libs/aqbanking/banking_update.c:42-109 | whatever fails, a first part of the changes for all groups of the store was made, all of them on success; it succeeds only if some group has an id, and if no error arises exactly then; locks balanced unless an unlock failed |
| `Migration.FilteredOps` | src/libs/aqbanking/banking_update.c:48-49 | groups without an id are left alone, so reading only those with one is enough |
| `Migration.PassLeavesIds` | src/libs/aqbanking/banking_update.c:42-364 | a pass that succeeds leaves some group of its kind with an id if there was one, and all other kinds as they were, even in stores where it loses groups |
| `Renaming.NothingLost` | src/libs/aqbanking/banking_update.c:42-109 | if no two groups clash and none takes another along, every group is stored in full at every step under its old or its derived name, groups with id zero under their old one, and other kinds are untouched |
| `Renaming.RenamingWorksWhenRestored` | src/libs/aqbanking/banking_update.c:42-109 | for every store: all groups end under their derived names, and equivalently none is lost at the end, if and only if no two groups with different contents are to be stored under one name that one of them moves to, and each name that a group leaves after another has moved there is moved to again |
| `Renaming.SafeExactlyWhenClear` | src/libs/aqbanking/banking_update.c:42-109 | for every store: no group is lost at any step if and only if no two groups clash like that, which two groups sharing an id do, and none leaves the name of another after that one has moved there |
| `Renaming.SecondRunIdle` | src/libs/aqbanking/banking_update.c:42-109 | after a renaming that worked a second run has nothing to do |
| `Renaming.OwnNamesClear` | src/libs/aqbanking/banking_update.c:76-80 | if no two groups share an id, different ids give different names, and every name of derived form belongs to its own id, no group is in the way, in whatever order groups are listed |
| `Rewriting.RewritingStops` | src/libs/aqbanking/banking_update.c:244-298 | wherever a rewriting pass stops no group has lost its place or changed otherwise; at its end every group with an id is changed |
| `Rewriting.NotReadyLoses` | src/libs/aqbanking/banking_update.c:42-109 | the condition that an update needs is exact: without it there is an order of listing the groups in which one is lost |
| `Migration.UpdateAccountSetUserId` | src/libs/aqbanking/banking_update.c:244-298 | a first part of writing each account with user id set, all of it on success |
| `Migration.UpdateAccountSetBackendName` | src/libs/aqbanking/banking_update.c:302-364 | the same for the backend name |
| `Migration.UpdateBackendInitDeinit` | src/libs/aqbanking/banking_update.c:190-240 | begins and ends the use of every backend that is listed and compiled in, in order, each unless an error of its own stopped it, so of all if there was none; fails exactly if backends cannot be listed; only settings of backends can change |
| `Migration.EventsOfBackend` | src/libs/aqbanking/banking_update.c:190-240 | such a run of uses, read off place by place: for backend number i its begin and its end |
| `AccountUpdate.UpdatedAccount` | src/libs/aqbanking/banking_update.c:244-364 | both rewrites together: userId is the old user, backendName the old one or else the non-empty provider, whose variable is then deleted; user and selectedUser are gone, and all other variables unchanged |
| `AccountUpdate.SecondSetUserForgets` | src/libs/aqbanking/banking_update.c:276-281 | setting the user id twice is the same as once exactly if the user was 0; otherwise the user is forgotten |
| `UpdateRuns.Update` | src/libs/aqbanking/banking_update.c:143-185 | for every store in which no two accounts and no two users clash over a derived name or use the one another moves to: whatever fails, no account and no user is lost and other settings are untouched, and success leaves all accounts and users under their derived names only, accounts with all changes, as the next row says, and every listed backend was used once unless an error of its own stopped it; for every store it succeeds only if there are an account and a user with an id and the backends can be listed, and if no error arises exactly then |
| `UpdateRuns.StageRead` | src/libs/aqbanking/banking_update.c:143-185 | what success means for each group: an account with an id is under its derived name with its old user as userId, its backendName or former provider as backendName, and without user and selectedUser; a user with an id is under its derived name with unchanged contents; groups without an id are as they were |
| `UpdateRuns.UpdatedAccountStored` | src/libs/aqbanking/banking_update.c:143-185 | what a successful update stored for one account, in plain terms: under its derived name, and no other name has a group with its id |
| `UpdateRuns.RepeatedUpdateForgetsUsers` | src/libs/aqbanking/banking_update.c:143-185 | when an update has got past setting user ids, whether it stopped behind that or came to its end, and a later one succeeds, the userId of every account is 0 |
| `UpdateRuns.ReadyAgain` | src/libs/aqbanking/banking_update.c:143-185 | the store it left is in order for a later update, which loses no account and no user |
| `Bcd.FromBCD` | src/libs/aqbanking/backendsupport/msgengine.c:70-85 | the value of eight packed digits |
| `Bcd.UnpackedDigits` | src/libs/aqbanking/backendsupport/msgengine.c:70-85 | that value written out: each group of four bits times its power of ten, the upper ones times 10000000 |
| `Bcd.ToBCD` | src/libs/aqbanking/backendsupport/msgengine.c:89-125 | the digits packed, modulo 2^32 |
| `Bcd.UnpackedPacked` | src/libs/aqbanking/backendsupport/msgengine.c:70-125 | reading back a packed number gives it modulo 160000000, so the number itself exactly below that |
| `Bcd.PackedUnpacked` | src/libs/aqbanking/backendsupport/msgengine.c:70-125 | packing what was read gives the word exactly when its seven low nibbles are at most 9 |
| `MsgNumbers.TypeReadByte` | src/libs/aqbanking/backendsupport/msgengine.c:150-168 | nothing from an empty buffer, else the next byte as a number |
| `MsgNumbers.TypeReadWord` | src/libs/aqbanking/backendsupport/msgengine.c:170-207 | nothing from an empty buffer, an error if a byte is missing, else the number of two bytes |
| `MsgNumbers.TypeReadDword` | src/libs/aqbanking/backendsupport/msgengine.c:209-263 | the same for four bytes, as a signed number |
| `MsgNumbers.TypeWriteByte` | src/libs/aqbanking/backendsupport/msgengine.c:524-546 | numbers out of range are refused, others appended as one byte |
| `MsgNumbers.TypeWriteWord` | src/libs/aqbanking/backendsupport/msgengine.c:548-593 | the same for two bytes in the wanted order |
| `MsgNumbers.TypeWriteDword` | src/libs/aqbanking/backendsupport/msgengine.c:594-656 | the same for four bytes |
| `MsgNumbers.BytesWritten` | src/libs/aqbanking/backendsupport/msgengine.c:524-656 | the big-endian bytes of a number written out by division, for one, two and four bytes |
| `MsgNumbers.BytesTurned` | src/libs/aqbanking/backendsupport/msgengine.c:524-656 | with the least byte first the bytes are the same ones in opposite order |
| `MsgNumbers.ReadBackExact` | src/libs/aqbanking/backendsupport/msgengine.c:150-656 | a written number is read back as itself exactly: always if plain and big-endian; packed up to 99, 9999 or below 160000000 by width; little-endian only if it fits the first byte |
| `Tlv.ElementSize` | src/libs/aqbanking/backendsupport/msgengine.c:407-489 | how far the element goes that some bytes start with, or an error if there is none |
| `Tlv.TypeReadTlv` | src/libs/aqbanking/backendsupport/msgengine.c:401-501 | cuts out exactly the encoding of the next element and moves behind it; on error nothing changes |
| `Tlv.ReadHeader` | src/libs/aqbanking/backendsupport/msgengine.c:823-907 | tag and length of the element, and where its value starts |
| `Tlv.BinTypeRead` | src/libs/aqbanking/backendsupport/msgengine.c:805-911 | the tag is, said on the octets themselves, the low five bits of the first octet or the whole second octet if those are all set, and in the simple form the whole first octet; the length is that of the element, and the buffer is left at the value |
| `Tlv.TagOfOctets` | src/libs/aqbanking/backendsupport/msgengine.c:844-861 | of an encoded element whose first octet is 32*c + n the tag is n for n below 31, whatever the class and form bits c, and the next octet for n = 31 |
| `Tlv.TagOfOctet` | src/libs/aqbanking/backendsupport/msgengine.c:844-861 | in the simple form it is the whole first octet |
| `Tlv.Octets` | src/libs/aqbanking/backendsupport/msgengine.c:421-489 | the encoding of an element written out: tag, then one length octet below 128, or 0x81 or 0x82 and one or two; in the simple form one below 255, or 0xff and two; then the value |
| `Tlv.ParseSound` | src/libs/aqbanking/backendsupport/msgengine.c:401-501 | what is parsed was encoded there |
| `Tlv.ParseComplete` | src/libs/aqbanking/backendsupport/msgengine.c:401-501 | what was encoded in a supported form is parsed as it was, whatever follows |
| `Tlv.ReadsBack` | src/libs/aqbanking/backendsupport/msgengine.c:401-501 | repeated reading of a message returns exactly its elements in order |
| `Tlv.ReadMessage` | src/libs/aqbanking/backendsupport/msgengine.c:401-911 | a caller that cuts out one element after the other and hands each slice to the header parser gets tags and values of exactly the elements of the message, or an error if it is not one |
| `Tlv.ReadSound` | src/libs/aqbanking/backendsupport/msgengine.c:401-501 | bytes that can be read to the end are the message of what was read |
| `Tlv.MessagesDiffer` | src/libs/aqbanking/backendsupport/msgengine.c:401-501 | no two lists of elements have the same bytes |
| `Tlv.SliceInterpreted` | src/libs/aqbanking/backendsupport/msgengine.c:805-911 | on each element cut out the second reader finds the same tag and length, and exactly the value is left |
| `Dta.Utf8ToDta` | src/libs/aqbanking/backendsupport/imexporter.c:242-315 | for every size the translation of the text in view |
| `Dta.TextToDta` | src/libs/aqbanking/backendsupport/imexporter.c:242-315 | well-formed text gives one byte for each character |
| `Dta.ToDtaInAlphabet` | src/libs/aqbanking/backendsupport/imexporter.c:242-315 | for any bytes all output is in the DTA alphabet |
| `Dta.DtaToUtf8` | src/libs/aqbanking/backendsupport/imexporter.c:319-362 | for any bytes the output is well-formed UTF-8 |
| `Utf8.Decoded` | src/libs/aqbanking/backendsupport/imexporter.c:319-362 | the UTF-8 bytes of a character read back by the table of section 3 of RFC 3629 |
| `Dta.DtaRoundTrip` | src/libs/aqbanking/backendsupport/imexporter.c:242-362 | a string translated to UTF-8 and back is the same exactly if it is over the DTA alphabet |
| `Dta.GermanCodes` | src/libs/aqbanking/backendsupport/imexporter.c:262-297 | exactly the characters of two bytes that end in the last six bits of a German letter get one of the four German codes |
| `Dta.PlainCharacters` | src/libs/aqbanking/backendsupport/imexporter.c:242-315 | what each ASCII character becomes: capitals, digits and ten signs stay, small letters become capitals, all others blanks |
| `Dta.DtaBytes` | src/libs/aqbanking/backendsupport/imexporter.c:319-362 | what each DTA byte becomes: four codes are the German letters, capitals, digits and signs stay, all others are blanks |
| `Dta.RightExactly` | src/libs/aqbanking/backendsupport/imexporter.c:242-315 | a well-formed text comes out as it should exactly if it holds no foreign letter whose last six bits are those of a German one |
| `Dta.ForeignLetter` | src/libs/aqbanking/backendsupport/imexporter.c:242-315 | a concrete foreign letter that becomes a German one |
| `Latin1.ImExporterToUtf8` | src/libs/aqbanking/backendsupport/imexporter.c:398-419 | the UTF-8 form of the Latin-1 characters, with controls as blanks |
| `Latin1.CleanAt` | src/libs/aqbanking/backendsupport/imexporter.c:398-419 | of the bytes only those below 32 and 127 are changed, into blanks |
| `Latin1.BankingToUtf8` | src/libs/aqbanking/banking.c:484-515 | well-formed UTF-8 for every byte string; pairs that are UTF-8 already pass |
| `Latin1.SizeCounts` | src/libs/aqbanking/banking.c:484-515 | a size gives the first characters of the whole translation, not the first bytes |
| `Latin1.CoreIdempotent` | src/libs/aqbanking/banking.c:484-515 | translating the result again changes nothing |
| `Latin1.Compare` | src/libs/aqbanking/banking.c:484-515 | both versions agree exactly on text without line feeds and without 0xC2 or 0xC3 before a continuation byte |
| `Sepa.CheckStringForSepaCharset` | src/libs/aqbanking/banking_transaction.c:388-461 | 0 exactly for allowed text, and the seven bytes for the error message are never overrun |
| `Sepa.AcceptedText` | src/libs/aqbanking/banking_transaction.c:388-461 | accepted are exactly the UTF-8 texts of allowed characters; restricted acceptance implies unrestricted |
| `Sepa.AllowedCharacters` | src/libs/aqbanking/banking_transaction.c:388-461 | which ASCII characters are allowed, in both modes, one by one |
| `Flags.FlagsToDb` | src/libs/aqbanking/banking.c:547-556 | the variable holds the names of the set flags and nothing of what it held before |
| `Flags.NamesStored` | src/libs/aqbanking/banking.c:547-556 | a name is stored exactly if some entry of that name has a bit in common with the flags, and no other variable changes |
| `Flags.FlagsFromDb` | src/libs/aqbanking/banking.c:519-543 | all flags of the names before the first place without one, and of no others |
| `Flags.FlagsRead` | src/libs/aqbanking/banking.c:519-543 | a bit is read exactly if it belongs to the first entry of one of the names |
| `Flags.FindFlagDefByString` | src/libs/aqbanking/banking.c:560-569 | the first entry of that name, whatever its case, or none if no entry has it |
| `Flags.FlagsRoundTrip` | src/libs/aqbanking/banking.c:519-569 | for tables whose names are not empty and differ, flags come back restricted to the table exactly if each entry is set wholly or not at all, which entries of one bit always are |
| `Lifecycle.PluginSystem.Init` | src/libs/aqbanking/banking_init.c:189-224 | succeeds exactly if it is already initialised or all calls it makes do; counts up, making the lists for the first; a failure changes nothing |
| `Lifecycle.PluginSystem.Fini` | src/libs/aqbanking/banking_init.c:228-284 | counts down, freeing the lists with the last |
| `Lifecycle.Banking.Init` | src/libs/aqbanking/banking_init.c:45-101 | both counts go up together, or neither has changed when it fails; it fails only for the plugin system, or as the first call of an object for want of a store, for an error, or because a due update cannot be made; settings change only if the first call finds them written by an earlier version from before the latest change of form, and then, if no names clash, no account and no user is lost even when it fails; when it succeeds, the update was made in full: every account and user is as UpdateRuns.StageRead says, and every listed backend was used once unless an error stopped it |
| `Lifecycle.Banking.Fini` | src/libs/aqbanking/banking_init.c:105-179 | both counts go down, but only the own one if it fails, which it does exactly if the object is not initialised, or for want of a store or an error in its last call; that call alone stores the version |
| `Lifecycle.RunGood` | src/libs/aqbanking/banking_init.c:45-284 | over all runs on any number of objects the global count is the sum of their counts plus the calls of Fini that failed, so the lists exist while any object is initialised |
| `Lifecycle.CountsAgree` | src/libs/aqbanking/banking_init.c:45-284 | global count and sum agree exactly as long as no Fini failed after counting down |
| `Fuzzy.WordSimilarity` | src/tools/mkdeinfo/mkdeinfo.c:268-294 | the average score of two words; the division never fails for a word that is not empty |
| `Fuzzy.FullScore` | src/tools/mkdeinfo/mkdeinfo.c:268-294 | 1024 exactly if the first word is how the second one begins |
| `FuzzyLaws.WrongLetter` | src/tools/mkdeinfo/mkdeinfo.c:268-294 | a word of n letters that differs from another in one letter scores 1024*(n-1)/n |
| `FuzzyLaws.MissingLetter` | src/tools/mkdeinfo/mkdeinfo.c:268-294 | against a word that lacks one of its n letters, not the last, it scores (1024*(n-2)+256)/n |
| `FuzzyLaws.ExtraLetter` | src/tools/mkdeinfo/mkdeinfo.c:268-294 | against a word with one letter more in between it scores (1024*(n-1)+256)/n |
| `FuzzyLaws.LongerWord` | src/tools/mkdeinfo/mkdeinfo.c:268-294 | against its own beginning of m letters it scores 1024*m/n |
| `Fuzzy.CmpWordList` | src/tools/mkdeinfo/mkdeinfo.c:382-405 | the average over a list of words, or 1024 if the word is in it |
| `Fuzzy.FindScore` | src/tools/mkdeinfo/mkdeinfo.c:409-430 | the average over the words of the first list |
| `Fuzzy.MakeWordList` | src/tools/mkdeinfo/mkdeinfo.c:308-378 | one word in small letters, or the words an abbreviation stands for |
| `FuzzyLaws.Abbreviations` | src/tools/mkdeinfo/mkdeinfo.c:320-372 | which texts are abbreviations and what each stands for, one by one; every other name is its own small letters |
| `Fuzzy.FuzzyCompare` | src/tools/mkdeinfo/mkdeinfo.c:434-449 | the mean of both directions |
| `FuzzyLaws.RatingOfWords` | src/tools/mkdeinfo/mkdeinfo.c:434-449 | two names of one word each are rated by the mean of the two scores of one against the other |
| `FuzzyLaws.RatingOfUnion` | src/tools/mkdeinfo/mkdeinfo.c:382-449 | a name that stands for three words is rated by the mean of both averages over them |
| `Fuzzy.FullRating` | src/tools/mkdeinfo/mkdeinfo.c:382-449 | never above 1024, and 1024 exactly for names that are not empty and come down to the same words |
| `Fuzzy.SameNames` | src/tools/mkdeinfo/mkdeinfo.c:308-378 | names that differ only in case come down to the same words |
| `Fuzzy.AbbreviationsUnlike` | src/tools/mkdeinfo/mkdeinfo.c:308-449 | an abbreviation and a name that is none, even its full form, score 0 |

## Left out

- Command line tools, dialogs, progress and job logging: user interface without a hard property.
- Plugin loading, HTTP and TLS, crypt tokens, profiles, copying of old settings folders: calls into Gwenhywfar, which is not part of this model.
- `aqbankingpp` and AB_VALUE: the arithmetic behind them is not part of the repository.
- Transaction limits, account type names, callback tables of providers: each settled by reading one branch.
- What a backend does with its queue, and what it writes when it ends: parameters. `GetAccountSpec`, `GetAccount` and `GetUser` are functions from ids to a result or an error code.
- The store itself: writing or deleting a group happens as a whole or not at all, a group that is already locked cannot be locked again, reading a missing group gives an empty one, and groups are listed in any order. Null checks on the config manager are left out except in Init and Fini. The values of error codes other than the ones named are arbitrary negative numbers.
- Settings groups as trees: subgroups are not modelled, text and numbers in variables are not converted into each other, and a group is a value that is handed back changed where the code changes it in place.
- Names of variables and providers are matched exactly. Letters are those of the C locale, strings contain no NUL character.
- Memory exhaustion and the overflow of counters: ids are unbounded until they become 32-bit job ids.
- The links inside the queues of the LIST types: a list is a sequence of queues, each on it at most once.
- Provider queues without an account list: the error for that is not modelled.
- The chunk loop for the remainder stands twice in the source and once here; statements that are repeated for each decimal place are one method. Bodies of long loops are methods of their own.
- The decimal text of numbers in binary messages, types other than byte, word, double word and element, and what follows the header in `BinTypeRead`: the matching of tags with a message description is not modelled. Where the position of the buffer is after a failed header is left open.
- The loop that reads a whole message is in Gwenhywfar; `Tlv.ReadMessage` is such a caller, not code of the repository.
- Dta.Utf8ToDta: does not cover text that ends right after the first byte of a character without being ended by its size, because the code then reads behind the end.
- Sepa.CheckStringForSepaCharset: does not say what the error message contains.
- Flags.FlagsToDb: takes a 32-bit word as the set of its one bits, and a table without the entry that ends it; a table entry without a name is not modelled.
- Fuzzy.MakeWordList: the loop that skips characters between words is left out, as the test for letters and digits holds of every character and it never runs.
- Lifecycle.Banking.Fini: does not model the clearing of crypt tokens.
