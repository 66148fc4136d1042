# Proofs about the sign-in server

The server is a Go fork of Casdoor. This project models those of its parts that keep real state or do real
computation, and proves what they are for. Every module stands beside one part of the program:

| module | part of the program |
|---|---|
| `DeviceFlow`, `DeviceRuns`, `DeviceServer`, `DeviceTokens` | the device authorization flow (sections 3.1 to 3.5 of RFC 8628): one shared map, three handlers, and the account of the token |
| `CacheKey`, `CommandCache`, `CommandStories`, `CommandCacheStore` | the cache of command line results: its key, its two locks, its background cleaner, and each call from its start to its return |
| `IpLocator` | the 17mon address table: the binary file and the windowed search in it |
| `PhoneSignin`, `PhoneSends`, `PhoneAccounts`, `PhoneUniqueness`, `PhoneOwners`, `PhoneSigninHandlers` | one-step phone sign-in and the older sign-up under a lock for each phone number: locks and codes, how often a code is sent, the invariant of accounts, exactly when accounts are unique, whose account a sign-in ends in, and the handlers |
| `UserLookup` | accounts, and the look-up by what is typed in |
| `Consent` | the consents of a user |
| `DjangoPassword`, `Decimal` | Django's password format |
| `UploadNaming`, `LikePattern`, `Pigeonhole` | the search for a free name of an upload, and the database pattern it searches with |
| `SigningStrings`, `StringOrder` | the strings that Telegram logins, Alipay requests and command requests sign |
| `PemFormat` | wrapping of a private key |
| `Translations`, `TranslationFile`, `JsonStrings` | regeneration of the translation files, and their text |
| `TempFiles` | command arguments moved to temporary files |
| `Splitting`, `Wrappers` | splitting and joining, optional values |

Concurrent parts are state machines: one step is one operation on the shared map, one lock operation, or one access
under a lock, and a run is any interleaving of steps of any number of requests. Code that changes things in place is
a class or a method with loops, tied by its contract to a function of the old state; the lemmas are about these
functions. Time is a clock that never runs back; random codes, file names, answers of the database and of the network,
and the failures of system calls are arbitrary values.

## What the proofs show of the code

Most of what the code is for holds on all inputs. In these places it does not; each is stated as an exact condition.

- A device code can be redeemed twice: a poll loads the entry and deletes it in two operations
  (`controllers/token.go:255` and `:289`). All redemptions still give the one approver's name. Any two redemptions of
  a code overlap, and wherever two polls of a code have both loaded its entry and are in time, both can redeem it.
- The retry loop for user codes (`controllers/auth.go:1521-1537`) never generates a new code. It looks for the same
  one up to six times, and gives up when all six find it.
- A token of a redeemed device code is sure to be for the approver's account exactly when the polling client is of the
  approver's organization: the approver leaves only a name in the map (`controllers/auth.go:267`), and the token is made
  for the account of that name in the client's organization (`object/token_oauth.go:991`).
- Sign-ups can create two accounts of one number. The number that is locked and the number of the new account are
  parsed differently, and only for an existing account does the code compare them (`controllers/phone_signin.go:111-117`);
  the older sign-up does without the look-up (`controllers/account.go:108-127`). Whatever the accounts at the start, the
  forms that are let in and the phone number library, accounts stay unique in all runs exactly when they are unique at
  the start, no form that nothing stands in the way of signs up for a number of theirs, and any two such forms for one
  number (or two requests of one form) choose the same name, or lock the same number and each would notice the account
  of the other. Forms that pass the comparison, and of the older ones those that look for an account of their number,
  always get along with each other. Whatever is locked, no code serves twice.
- A phone sign-in can end in another account than the one that was checked. `Login` looks it up again by what was typed
  in, by name first (`controllers/auth.go:636`, `object/user_util.go:64-96`). If that is the text the number is stored
  as, all accounts it can end in have the locked number exactly when all accounts named like the text have it, or, if
  there are none, it is a number of the country of every account stored with it: the country of the request, not of
  the account, decides in the check (`object/user_util.go:912-915`). Typed in another way, it never leads by phone to
  an account of the number that is stored by its national part.
- A Django hash is accepted for its own password exactly when the salt has no `$`.
- The index of an address file may reach into the text area, or beyond the end of a file in a larger buffer, but only
  where the header announces no records (`textoff` between 2045 and 2051).
- The upload takes a name for taken if the candidate's key, as a `LIKE` pattern, occurs in an existing name
  (`object/ormer_session.go:35`). So "pic" is skipped next to "pic.png", and the result is the first free name exactly
  when no existing name contains that name's key (and every earlier key finds itself). The result is sure to be new
  exactly when its key finds itself: always without escape characters, and with them, in a key without wildcards,
  only if they stand at its end, evenly many. That is among the names of the one owner and user that are counted
  (`object/resource.go:43-46`); among the objects of all users it is sure to be new only if neither restricts the count.
- A path that ends in a slash and has an extension is not put together again from its stem and extension.
- Sorting Telegram's rendered lines is rendering in key order exactly when no key goes on from another key with a
  character below the equals sign (or with an equals sign and too small a rest). Data with the string of clean data
  (no equals sign in a key, no line feed) are those data exactly when they are clean. Among all data the string never
  determines them once it has two lines: the last one may be part of the value before.
- Trimming ampersands changes the Alipay string exactly when the first signed key begins or the last signed value
  ends with one.
- The text that is hashed for a command request determines it, among the requests that are accepted
  (`controllers/casbin_cli_api.go:270`), exactly when `&language=` stands neither after the first character of `args`
  nor before the last one of `language`.
- A translation file can be read again exactly when no namespace, key or word has a backslash directly before
  `u0026`: the replacement of escaped ampersands (`i18n/util.go:58`) spoils the escape of that backslash. A second
  run changes nothing in that case, and panics otherwise.
- Temporary files are left behind exactly when a system call fails other than the creation of the first file: what
  was made before is not reported to the function that removes files (`controllers/casbin_cli_api.go:139` and `:145`).
- Putting file contents back for generated file names gives the original arguments exactly when no argument that was
  passed through happens to be a generated name of other content; by position it always does.
- A translation is lost exactly when its word was missing from an intermediate regeneration.

## Model

| member | source | states |
|---|---|---|
| DeviceFlow.StepInv | controllers/auth.go:247-270 | every step of every handler, and the passing of time, keeps the inductive invariant, whose core is that exactly one holder (the request, the user-code entry, or one approver) can sign in a device code; history only grows |
| DeviceRuns.RunInv | controllers/auth.go:1518-1560 | the invariant holds in every world of every interleaved run, and a later world extends an earlier one |
| DeviceRuns.OneApproverPerDeviceCode | controllers/auth.go:248-261 | at any two moments of a run, the approvers that are past LoadAndDelete for a device code are one and the same request |
| DeviceRuns.ApprovedAtMostOnce | controllers/auth.go:267-270 | a device code goes from pending to signed-in at most once in a run |
| DeviceRuns.RedeemedReplyIsApproved | controllers/token.go:289-291 | every reply with a user name belongs to a redemption of a code that this very user approved |
| DeviceRuns.RedemptionsAgree | controllers/token.go:254-292 | all redemptions of one device code in any run give the same name, that of its one and only approver |
| DeviceRuns.RedeemedStaysDeleted | controllers/auth.go:260-270 | no later step puts back a device code that a redemption deleted, although the approver loads and stores in two steps |
| DeviceRuns.RedeemedInTime | controllers/token.go:279-291 | a redemption passed its check within 120 seconds of the device request, after an approval stored before it that itself passed the 120-second check; without an approval no name is given |
| DeviceRuns.PollAfterWait | controllers/token.go:279-291 | for any names, codes and waiting time there is a run in which a poll of an approved code, that long after the request, gets the name up to 120 seconds and after that finds the token expired |
| DeviceRuns.RedemptionsOverlap | controllers/token.go:255-289 | in every run any two redemptions of a code overlap: each loaded the entry before the other deleted it |
| DeviceRuns.AtomicPollsRedeemOnce | controllers/token.go:254-292 | if at no moment two polls of a code are between load and delete, the code is redeemed at most once |
| DeviceRuns.TwoRedeemersRedeemTwice | controllers/token.go:255-289 | from every reachable world in which two polls have loaded the entry of a code and are in time, some continuation redeems the code twice more |
| DeviceRuns.OverlappingPollsRedeemTwice | controllers/token.go:255-289 | for any accounts and codes there is a run in which two overlapping polls redeem the same code twice |
| DeviceTokens.RedeemsApproversName | controllers/token.go:291 | a redemption carries the name of the account that approved its code |
| DeviceTokens.TokenIsApproversIff | object/token_oauth.go:981-1008 | in every run the token of a redeemed code is sure to be for the approver's account if and only if the polling client is of the approver's organization (or of none, where nobody else has that name) |
| DeviceTokens.NamesakeGetsToken | object/token_oauth.go:981-1008 | a client of another organization gets a token for its own account of the approver's name |
| DeviceServer.MovesFinish | controllers/auth.go:1521-1537 | every step brings a handler closer to its reply, the retry loop included, so handlers finish under every interleaving |
| DeviceServer.TakenUserCode | controllers/auth.go:1521-1537 | a handler running alone that finds its user code taken looks at the same code until it gives up, and changes nothing |
| DeviceServer.LooksSixTimes | controllers/auth.go:1521-1537 | a handler that has found the code taken fewer than six times looks once more; after the sixth look it gives up |
| DeviceServer.EffectOfDeviceAuth | controllers/auth.go:1518-1560 | the machine steps of a device request, run alone, store both entries, or give up exactly when the user code is taken |
| DeviceServer.EffectOfApprove | controllers/auth.go:247-271 | the machine steps of an approval, run alone, have the four outcomes of the handler, each with its exact new map |
| DeviceServer.EffectOfRedeem | controllers/token.go:254-292 | the machine steps of a poll, run alone, have the four outcomes of the handler, each with its exact new map |
| DeviceServer.SignInRoundTrip | controllers/token.go:254-292 | request, approval and two polls: approval and first poll succeed exactly within their 120 seconds, the poll gives the approver's name, leaves the map as it was before the request, and the second poll finds the token expired |
| DeviceServer.Server.DeviceAuth | controllers/auth.go:1518-1560 | the handler as written leaves the map and reply of its machine steps |
| DeviceServer.Server.Approve | controllers/auth.go:247-271 | the handler as written leaves the map and reply of its machine steps |
| DeviceServer.Server.Redeem | controllers/token.go:254-292 | the handler as written leaves the map and reply of its machine steps |
| CacheKey.EscapePrefixFree | controllers/casbin_cli_api_cache.go:41 | no escape of JSON (section 7 of RFC 8259, with Go's additions) is a prefix of another one |
| CacheKey.ListTexts | controllers/casbin_cli_api_cache.go:41 | a list is its elements between brackets with commas between them; nil is the word null |
| CacheKey.StringPrefixFree | controllers/casbin_cli_api_cache.go:41 | quoted strings that begin the same text are the same string with the same rest |
| CacheKey.BodyInjective | controllers/casbin_cli_api_cache.go:41 | the elements of a JSON list determine the list |
| CacheKey.JsonInjective | controllers/casbin_cli_api_cache.go:41 | the JSON text determines the arguments, nil and empty lists told apart |
| CacheKey.QuoteParity | controllers/casbin_cli_api_cache.go:45 | no text ends outside strings both when read from outside one and when read from inside one |
| CacheKey.ColonIsInside | controllers/casbin_cli_api_cache.go:45 | what follows a colon in the JSON text of a list starts inside a string |
| CacheKey.LanguageIsNotPrefix | controllers/casbin_cli_api_cache.go:45 | requests with equal key texts have languages of equal length, whatever characters these contain |
| CacheKey.KeyInjective | controllers/casbin_cli_api_cache.go:40-48 | for all languages and argument lists the texts before hashing are equal if and only if language and arguments are, up to the identity of invalid bytes |
| CacheKey.KeyInjectiveOnValidArgs | controllers/casbin_cli_api.go:192-204 | for arguments that were decoded from a request, nil from `null` among them, the key text tells everything apart |
| CommandCache.RefinesSet | controllers/casbin_cli_api_cache.go:81-87 | a set keeps the map equal to the log of all sets less expired entries |
| CommandCache.StepInv | controllers/casbin_cli_api_cache.go:51-100 | every step keeps the lock, flag and refinement invariants |
| CommandCache.RunInv | controllers/casbin_cli_api_cache.go:51-100 | these invariants hold in every world of every interleaved run |
| CommandCache.GetsAreExact | controllers/casbin_cli_api_cache.go:67-77 | a look-up in the map answers what a map that never deletes would answer at that moment |
| CommandStories.GetsReturnExactly | controllers/casbin_cli_api_cache.go:67-77 | in every run, a get that was called for a key and has returned gave what the log of all sets said of this key at some moment between its call and its return: the output of the latest set of the key if that was less than five minutes before, and otherwise a miss |
| CommandStories.SetsAreLogged | controllers/casbin_cli_api_cache.go:80-100 | in every run, a set that was called and has returned is in the log, with its own key, output and time between call and return; and if it left a multiple of 100 entries, the flag for a cleaner was up at some moment after that |
| CommandStories.CleanerRemovesExpired | controllers/casbin_cli_api_cache.go:51-64 | in every run, when a cleaner has scanned the map no entry is left that was five minutes old when the cleaner was spawned |
| CommandStories.HitsAndMisses | controllers/casbin_cli_api_cache.go:67-87 | for any key and output there is a run in which a get after the set hits and one five minutes later misses |
| CommandCache.LogGrowsBySets | controllers/casbin_cli_api_cache.go:80-87 | that reference map changes only by the sets, one at a time, each with its time |
| CommandCache.FlagMeansOneCleaner | controllers/casbin_cli_api_cache.go:61-63 | the flag is up exactly while one thread is to spawn the cleaner, or is the cleaner and has yet to clear it |
| CommandCache.CleanerIsAlone | controllers/casbin_cli_api_cache.go:51-64 | while a cleaner scans or clears, nobody else reads, writes or scans |
| CommandCache.NoDeadlock | controllers/casbin_cli_api_cache.go:51-100 | as long as a thread is not done some thread can take a step, and a new reader only where no writer waits |
| CommandCacheStore.Store.constructor | controllers/casbin_cli_api_cache.go:31-37 | the cache starts empty, refines the empty log, and no cleaner is under way |
| CommandCacheStore.Store.Get | controllers/casbin_cli_api_cache.go:67-77 | answers as the log of all sets does at the time of the look-up |
| CommandCacheStore.Store.Set | controllers/casbin_cli_api_cache.go:80-100 | adds exactly one entry and one event, and spawns a cleaner exactly at a multiple of 100 entries with the flag down |
| CommandCacheStore.Store.CleanExpired | controllers/casbin_cli_api_cache.go:51-64 | removes only entries that have expired, and all that had expired when it began; clears the flag |
| IpLocator.WindowContains | ip/ip17mon.go:109-113 | on a well-formed table the record a linear scan finds lies between the index of the first octet and that of the next one, in range |
| IpLocator.ScanInWindow | ip/ip17mon.go:118-134 | the position in the window that separates smaller bounds from the others is the one the scan finds |
| IpLocator.BitsIsLog | ip/ip17mon.go:120-127 | the bound on the iterations is one more than the integer part of the logarithm of the window |
| IpLocator.Describe | ip/ip17mon.go:162-199 | a text gives a location if and only if it has three or four tabs |
| IpLocator.FiveFields | ip/ip17mon.go:162-199 | of five fields the first three are country, region and city, the fifth is the provider, and "N/A" stands for each that is empty |
| IpLocator.FourFields | ip/ip17mon.go:162-199 | of four fields the first three are country, region and city, and the provider is "N/A" |
| IpLocator.ByteOrders | ip/ip17mon.go:137-158 | the weights of the bytes in the header, the index, bounds and offsets |
| IpLocator.AcceptedHeaders | ip/ip17mon.go:136-160 | accepted are exactly the buffers of at least 1028 bytes whose `textoff` is at least 2045 and points no further than the end of the file |
| IpLocator.RecordsBeforeText | ip/ip17mon.go:147-158 | the records of every accepted file lie between the index and the text area, inside the file |
| IpLocator.IndexBeforeText | ip/ip17mon.go:137-147 | the index lies before the text area if and only if `textoff` is at least 2052; otherwise it is at least 2045 and there are no records, and only then may the file end inside the index |
| IpLocator.DecodeSerialize | ip/ip17mon.go:136-160 | every table that fits the layout is what its serialization decodes to, the number of records included, whatever follows in the buffer |
| IpLocator.DecodesOnce | ip/ip17mon.go:136-160 | a file decodes to one table only |
| IpLocator.FileAnswers | ip/ip17mon.go:108-160 | whatever a file decodes to that was made from a list of ranges and texts, it is well formed and answers every 32-bit address with the text of the first range that reaches it |
| IpLocator.Locator.Init | ip/ip17mon.go:136-160 | accepts exactly the files on which Go refuses no access (parts of a slice may reach to the capacity, single bytes may not), and fills the fields with the table they decode to |
| IpLocator.Locator.ReadIndex | ip/ip17mon.go:141-145 | the first loop reads 256 little-endian numbers |
| IpLocator.Locator.ReadRecords | ip/ip17mon.go:153-158 | the second loop reads bound, 24-bit offset and length of every record |
| IpLocator.Locator.FindIndexOffset | ip/ip17mon.go:119-134 | the binary search finds the record of the linear scan, in range, in at most floor(log2(window)) + 1 iterations |
| IpLocator.Locator.FindRecord | ip/ip17mon.go:108-113 | for every 32-bit address the windowed search picks the record of the linear scan |
| IpLocator.Locator.FindByUint | ip/ip17mon.go:108-116 | for every 32-bit address the answer is that of the linear scan |
| IpLocator.Locator.NewLocationInfo | ip/ip17mon.go:162-199 | the fields are those of the text, with the null text for empty and missing ones |
| UserLookup.GetUserByField | object/user_util.go:35-53 | gives an account that has the value in the field, if there is one; an empty organization stands for any one, an empty value for nobody |
| UserLookup.GetUserByFields | object/user_util.go:64-102 | gives an account that matches by name; only if there is none, by phone without its prefix; then by identifier, then by ID card; nobody if nothing matches |
| UserLookup.MayFindInFull | object/user_util.go:64-102 | in terms of the stored fields alone: exactly which accounts a text may find, by name, then by phone (the national part of a number with a plus sign, any other text as it is), then by identifier, then by ID card |
| UserLookup.FoundByPhone | object/user_util.go:88-92 | for a text that nobody is named: whatever is found by phone is stored with the national part of the text, and if anybody is, exactly those accounts may be found |
| UserLookup.ForeignNameMisses | object/user_util.go:43-44 | an account of another organization is never found |
| PhoneSignin.MutualExclusion | object/phone_signin.go:18-39 | at any moment of any run at most one request is between locking and unlocking a number |
| PhoneSignin.AllLocksReleased | controllers/phone_signin.go:100-137 | when all requests have finished no lock is held, whatever checks failed on the way |
| PhoneSignin.StepFacts | object/phone_signin.go:61-101 | every step keeps what requests rely on: which number they locked, what their code was sent to, and that each record is spent by one of them only |
| PhoneSignin.OneUsePerCode | object/phone_signin.go:61-101 | in every run each account added and each sign-in has consumed a code of its own, sent for its organization to the new account's number, or to the locked one; no code serves twice; only an older sign-up that asks for no code does without |
| PhoneSignin.AddedAsAsked | controllers/account.go:97-313 | in every run an account is added only where sign-up is enabled, to a form that asks for it, with the organization and country of the form and the phone that is made of the locked number, read once more by phone sign-in; the older sign-up never signs in |
| PhoneSends.SendsAreLimited | object/phone_signin.go:42-57 | in every run, any code is sent at least 60 seconds after every other one of the run to the same number of the organization, and is at most the tenth within 24 hours |
| PhoneSignin.AccountsAreAdded | controllers/account.go:304-313 | accounts are those of the start and, in order, those that sign-ups added |
| PhoneAccounts.RivalIsNoticed | controllers/phone_signin.go:105-118 | an account that has the number of a form that gets along with the others is seen by its look-up or its check |
| PhoneAccounts.AddedIsNoRival | controllers/account.go:108-127 | an account that is added while another request holds its lock does not have the number of that request's form, or has the name it chooses |
| PhoneAccounts.StepInv | controllers/phone_signin.go:95-137 | every step of requests whose forms get along keeps accounts unique, each made by one of these forms, and keeps what each request has found out about them under its lock |
| PhoneAccounts.RunInv | controllers/phone_signin.go:95-137 | this holds in every world of every run of such requests, from any accounts |
| PhoneUniqueness.UniqueIffGetAlong | controllers/phone_signin.go:95-137 | for all accounts at the start, all sets of forms of phone sign-in and of the older sign-up, and all phone number libraries: accounts stay unique in all runs if and only if the forms get along |
| PhoneUniqueness.SafeGetAlong | controllers/phone_signin.go:111-117 | safe forms get along with each other, from accounts stored by the national part of their number |
| PhoneUniqueness.SafeRunsAreUnique | controllers/phone_signin.go:95-137 | so every run of safe forms leaves at most one account per organization and number |
| PhoneUniqueness.InRegionIsSafe | controllers/phone_signin.go:111-117 | a form is safe if its number passes the comparison that the code makes for existing accounts, and, for the older sign-up, accounts of the number are looked for |
| PhoneUniqueness.TwinIsIncompatible | controllers/account.go:108-127 | an unsafe form, if the number of its account is one of its country, does not get along with the safe sign-up for that number |
| PhoneUniqueness.UncheckedIsIncompatible | object/check.go:42-104 | an older sign-up that neither looks for accounts of its number nor chooses its name does not get along with itself |
| PhoneUniqueness.LetInIffCompatible | controllers/phone_signin.go:111-117 | a form can be let in among safe ones, without ever leading to two accounts of one number, if and only if nothing can come of it or it is compatible with itself and with each safe one |
| PhoneUniqueness.UniqueIffStored | object/user.go:549-567 | an account stays the only one of its number in all runs of safe forms if and only if it is stored as the look-up looks for it, or no safe form signs up for its number |
| PhoneUniqueness.ForeignNumberTwice | controllers/phone_signin.go:111-117 | a run in which an American number sent with China and a Chinese one of the same national part become two accounts of the Chinese number |
| PhoneUniqueness.OlderSignupTwice | controllers/account.go:108-127 | a run in which two older sign-ups without a check become two accounts of one number |
| PhoneUniqueness.StoredWithPlusTwice | object/user.go:549-567 | a run in which an account stored with its plus sign gets a second one beside it |
| PhoneOwners.EntersIffFound | controllers/auth.go:636-681 | the accounts that runs of requests with one form can sign in to are exactly those that the look-up by its text may give, if the number passes the check, and none otherwise |
| PhoneOwners.NumberEnters | controllers/auth.go:636-681 | typed in as its full number, for a number that somebody has and nobody is named: the accounts that sign-ins can end in are exactly those stored with its national part |
| PhoneOwners.NumbersArePlain | object/user_util.go:88-89 | the full number and its national part are both looked up as the phone the account is stored with |
| PhoneOwners.FoundOwnIffUnambiguous | object/user_util.go:64-96 | for a number that somebody has, typed in as it is stored: whatever the look-up gives has the number if and only if all accounts named like the text have it, or there are none and it is a number of the country of every account stored with it |
| PhoneOwners.OwnersEnterIffUnambiguous | controllers/auth.go:636-681 | all accounts that runs of requests with a form can sign in to have the number that was locked, checked and sent the code, under exactly that condition on the accounts |
| PhoneOwners.SignInsOfRuns | controllers/auth.go:636-681 | in every run of any forms each sign-in is to an account that the look-up gave among the accounts of that time, after its number was locked and let pass, and has that number if the text was unambiguous then |
| PhoneOwners.OtherTextMisses | object/user_util.go:89-94 | a text that is looked up as another phone never leads, by phone, to an account of the number that is stored by its national part |
| PhoneOwners.NobodysNumber | controllers/phone_signin.go:120-122 | a login for a number that nobody has ends in no account of another number if and only if the look-up by its text finds nobody |
| PhoneOwners.OneCountryIsUnambiguous | object/check.go:46-58 | the condition holds if no name begins like a number, as sign-up demands, and all accounts of the organization are of the country of the request |
| PhoneOwners.NamedLikeNumber | controllers/auth.go:636 | a run that signs in to an account whose name is the number of another one, with a code sent to that other one |
| PhoneOwners.OtherCountrysAccount | controllers/phone_signin.go:111-118 | a run that signs in to an American account with a Chinese number of the same national part and a code sent to that number |
| PhoneSigninHandlers.PhoneSigninNeedsAgreement | controllers/phone_signin.go:26-36 | agreement is needed exactly if sign-up is open or some required agreement item has a rule |
| PhoneSigninHandlers.ValidatePhoneSignin | controllers/phone_signin.go:14-22 | a sign-in is valid if and only if the application takes part and, for a form that may sign up, agreement is given wherever it is needed |
| PhoneSigninHandlers.Controller.LockPhoneAuthentication | object/phone_signin.go:18-39 | the lock is tried: it is taken once, or nothing changes |
| PhoneSigninHandlers.Controller.GetUserByPhone | object/user.go:549-567 | finds an account of the organization by national number, and only if there is one |
| PhoneSigninHandlers.Controller.Signup | controllers/account.go:97-313 | on every exit path the locks held are as before, locked at most once and unlocked as often, never when the caller holds the lock; at most one account is added, of exactly the number as it is read, under a name that was free, only if sign-up is open and, where the number is read, only under its lock; for a caller with the lock it is paid for with a code sent to the account's own number |
| PhoneSigninHandlers.Controller.ConsumePhoneSigninCode | object/phone_signin.go:61-101 | one code of the number is consumed, or nothing happens |
| PhoneSigninHandlers.Controller.CheckAndAdd | controllers/account.go:129-313 | the account is added last, under a free name, only if sign-up is open and, where a code is asked for, after one sent to its own number; any failed check adds nothing |
| PhoneSigninHandlers.Controller.SignUpOrGoOn | controllers/phone_signin.go:105-137 | under the lock: the request goes on with it if somebody has the number and it is one of the country of the request, or nobody has it and no sign-up is asked for; every other path unlocks once, and adds an account only for a number that nobody had, paid for with a code sent to the account's own number |
| PhoneSigninHandlers.Controller.LockAndGoOn | controllers/phone_signin.go:95-137 | the same with the lock: it is taken for exactly the number of the form, and either handed on or given back |
| PhoneSigninHandlers.Controller.PreparePhoneSignin | controllers/phone_signin.go:55-138 | either the response is written and no lock is left, or the form was no phone sign-in and nothing happened, or the caller goes on with exactly the lock of the number of a valid form; an account is added only for a valid form, for a number that was free to lock and that nobody in the organization had |
| PhoneSigninHandlers.Controller.SignInByForm | controllers/auth.go:636-681 | a sign-in by phone ends in an account that the look-up by the text may give, after a code sent to the number of the text was consumed |
| PhoneSigninHandlers.Controller.GetCountryCode | object/user_util.go:912-925 | the country of the form if it has one, otherwise the account's if it has one |
| PhoneSigninHandlers.Controller.Login | controllers/auth.go:567-681 | a login locks at most once, unlocks as often, leaves the locks as they were, and adds an account only as the preparation does; a phone sign-in of a valid form consumes exactly one code, sent to the number it has locked, and ends in an account that the look-up by the text may give, which has the locked number if the text is unambiguous |
| Consent.AddScopesIsUnion | controllers/consent.go:168-177 | appending the missing scopes is set union, keeps the old scopes in front, and makes no duplicates |
| Consent.AddScopesInTurn | controllers/consent.go:168-177 | each further scope is appended if it is not there yet, so new scopes stand in the order in which they were granted |
| Consent.RemoveScopesIsDifference | controllers/consent.go:73-83 | removing the revoked scopes is set difference and makes no duplicates |
| Consent.RemoveScopesInTurn | controllers/consent.go:73-83 | each further scope of the record stays at its place if it is not revoked |
| Consent.GrantRefines | controllers/consent.go:163-196 | granting is union on the map from applications to scope sets; records stay distinct, other applications stay as they are and in order |
| Consent.RevokeRefines | controllers/consent.go:66-91 | revoking is difference on that map, drops an application without scopes, and leaves the others as they are and in order |
| Consent.ListRefinesMap | controllers/consent.go:66-196 | after any sequence of grants and revokes from an empty list the list is well formed and is the map that the same sequence gives |
| Consent.RevokeUndoesGrant | controllers/consent.go:66-196 | revoking what was granted to a new application gives back the list |
| Consent.User.GrantConsent | controllers/consent.go:163-196 | the nested loops over the user object perform the grant |
| Consent.User.RevokeConsent | controllers/consent.go:44-91 | the nested loops perform the revocation, and fail without a change exactly if no application or no scope is named |
| Decimal.DigitsOfItoa | cred/pbkdf2_django.go:42 | a printed number is digits that parse to it |
| Decimal.AtoiOfItoa | cred/pbkdf2_django.go:56 | parsing inverts printing for 64-bit numbers |
| Decimal.AtoiOfSigned | cred/pbkdf2_django.go:56 | a sign in front is read, within the range of 64-bit numbers |
| Decimal.DigitsIff | cred/pbkdf2_django.go:56 | texts of decimal digits only are read as digits, and no others |
| DjangoPassword.Base64Injective | cred/pbkdf2_django.go:41 | Base64 (section 4 of RFC 4648) is injective on all byte strings |
| DjangoPassword.SextetIsInAlphabet | cred/pbkdf2_django.go:41 | the 64 characters are those of section 4 of RFC 4648, in their order |
| DjangoPassword.GroupBits | cred/pbkdf2_django.go:41 | the values of the four characters of a group, six bits each and the highest first, spell its three bytes; one byte is padded by two equals signs, two bytes by one |
| DjangoPassword.DecodeBase64 | cred/pbkdf2_django.go:41 | a decoder that reads the places of the characters in that alphabet gives back every byte string |
| DjangoPassword.HashedText | cred/pbkdf2_django.go:35-43 | a stored password is the text `pbkdf2_sha256$260000$`, the salt, a dollar sign and the Base64 text of the key |
| DjangoPassword.Base64HasNoDollar | cred/pbkdf2_django.go:41 | Base64 text has no dollar sign |
| DjangoPassword.SplitOfFormat | cred/pbkdf2_django.go:46-49 | a formatted password splits into its four parts exactly when the salt has no dollar sign |
| DjangoPassword.CheckOfHashed | cred/pbkdf2_django.go:35-67 | for all passwords and salts another password is accepted for a stored one if and only if the salt has no dollar sign and the derived keys are equal; the password itself, if and only if the salt has none |
| DjangoPassword.AcceptedHashes | cred/pbkdf2_django.go:45-67 | a password is accepted for exactly the texts `pbkdf2_sha256$`, iterations, `$`, salt, `$` and the Base64 text of the key derived with this salt and the number that the iterations are read as |
| UploadNaming.StemAndExtension | controllers/resource.go:270-271 | a path is its stem and extension if and only if it has no extension or does not end in a slash |
| UploadNaming.ExtensionIffDot | controllers/resource.go:270-271 | a path has an extension if and only if there is a dot in its last element |
| UploadNaming.ExtensionAfterDot | controllers/resource.go:270-271 | the extension goes from the last dot to the end |
| UploadNaming.NumberBeforeDot | controllers/resource.go:270-282 | every later candidate of "front.e" is "front-i.e", where e has neither dot nor slash |
| UploadNaming.NumberAtEnd | controllers/resource.go:270-282 | of a path without an extension it is the path followed by "-i" |
| UploadNaming.FirstUncounted | controllers/resource.go:269-284 | the loop, for any keys, returns the first candidate whose count is 0 |
| UploadNaming.FreeName | controllers/resource.go:269-284 | for every finite set of names, database and path the search ends, at the first of path, path-1, path-2 and so on whose key finds no existing name, with stem and extension kept |
| UploadNaming.TakenIsSmall | object/ormer_session.go:33-37 | a name can hold back only candidates whose number has no more digits than the name has characters |
| UploadNaming.NewIffFindsItself | object/resource.go:43-46 | a candidate with count 0 is sure to be no existing name if and only if its key, as a pattern, finds itself |
| UploadNaming.NewForAllIffAllCounted | object/resource.go:43-46 | among the objects of all users, a key with count 0 is sure to be new if and only if it finds itself and the count is restricted to no owner and no user |
| UploadNaming.NewIffEscapesAtEnd | object/resource.go:43-46 | for keys without wildcards that is so if and only if escape characters stand at their end only, evenly many |
| UploadNaming.NewWithoutEscapes | object/resource.go:43-46 | for keys without escape characters, wildcards or not, the result is a new name |
| UploadNaming.FirstFreeIffNotFound | controllers/resource.go:272-283 | the result is the first name that does not exist if and only if its key finds nothing and every earlier key something; where keys find themselves it never comes earlier, and it is that name if and only if its key occurs in no existing name |
| UploadNaming.FirstFreeExists | controllers/resource.go:272-283 | there is a first candidate that does not exist, after at most as many as there are names |
| UploadNaming.LongerNameIsSkipped | object/ormer_session.go:33-37 | next to a name that goes on from a plain path, the path itself does not exist but the upload gets the number 1 |
| UploadNaming.PictureIsSkipped | object/ormer_session.go:33-37 | so "pic" gets the number 1 next to "pic.png" |
| UploadNaming.OneNameHoldsBackTwo | object/ormer_session.go:33-37 | one existing name can hold back two candidates |
| UploadNaming.BackslashIsOverwritten | object/ormer_session.go:33-37 | with backslash as the escape character an existing name with one inside is given out again |
| LikePattern.FoundIsLong | object/ormer_session.go:35 | a name that a key finds is at least as long as the key has digits |
| LikePattern.FindsPlain | object/ormer_session.go:35 | a key without special characters is found exactly in the names that contain it |
| LikePattern.FindsUnderscores | object/ormer_session.go:35 | a key whose only special characters are underscores is found in exactly the names that have it at some place, any character standing for an underscore |
| LikePattern.FindsPercent | object/ormer_session.go:35 | of a key with a percent sign the two parts are found one after the other, with anything between them |
| LikePattern.FindsEscaped | object/ormer_session.go:35 | of a key with an escape the escaped character is found as it is, whatever it is |
| LikePattern.FindsItself | object/ormer_session.go:35 | a key without escape characters finds itself |
| LikePattern.FindsItselfIffEscapesAtEnd | object/ormer_session.go:35 | a key without wildcards that begins with no escape finds itself if and only if its escapes stand at the end, evenly many |
| Pigeonhole.AllTaken | controllers/resource.go:272-283 | distinct names that all exist are not more than the names that exist |
| UploadNaming.KeyShape | object/storage.go:83-90 | the key of a path is a fixed front followed by the path without leading slashes |
| UploadNaming.PlainKeyShape | object/storage.go:83-90 | the key is domain path, prefix and path with one slash between each, whether or not they came with slashes there |
| UploadNaming.CandidatesDiffer | controllers/resource.go:282 | candidates with different numbers differ even without their leading slashes |
| UploadNaming.ObjectKeysDistinct | object/storage.go:83-90 | the storage keys of all candidates of a path are distinct, for every domain and prefix |
| StringOrder.SortSorted | idp/telegram.go:111 | sorting gives an ordered list (of the same strings) |
| StringOrder.SortedUnique | idp/telegram.go:111 | a list has one sorted order only |
| StringOrder.SortOrder | idp/telegram.go:111 | sorted lines are the lines of the keys in some order |
| StringOrder.EnumerationsPermute | idp/telegram.go:105 | any two orders of a range over a map are permutations of each other |
| SigningStrings.DataCheckIgnoresOrder | idp/telegram.go:103-112 | the data-check string is the same for every order of the range over the data |
| SigningStrings.DataCheckString | idp/telegram.go:103-112 | the loop and the sort give that string, whatever order the range took |
| SigningStrings.DataCheckDetermines | idp/telegram.go:103-112 | data with the data-check string of clean data are those data if and only if they are clean: no equals sign in a key and no line feed anywhere |
| SigningStrings.TwoLinesConfuse | idp/telegram.go:103-112 | for all data with at least two lines there are other data with the same string: the last line may be part of the value before |
| SigningStrings.LineOrder | idp/telegram.go:109-111 | two rendered lines come in the order of their keys if and only if the longer key does not go on from the shorter with too small a character |
| SigningStrings.SortedLinesIffKeysKeepOrder | idp/telegram.go:109-112 | sorting the rendered lines is rendering in sorted key order if and only if that holds for all pairs of keys |
| SigningStrings.SortedLinesOfPlainKeys | idp/telegram.go:109-112 | so it is when all characters of all keys are greater than the equals sign |
| SigningStrings.GetStringToSign | idp/alipay.go:222-238 | the string to sign is that of the sorted keys, which exist and are unique, so it depends on the map alone |
| SigningStrings.Concatenate | idp/alipay.go:228-235 | the loop renders every key but `sign` and those with an empty first value |
| SigningStrings.LinesToSign | idp/alipay.go:228-235 | the signed lines are exactly one `key=value` for every key but `sign` with a value that is not empty, in the order of the keys |
| SigningStrings.SignDependsOnValues | idp/alipay.go:222-238 | adding, changing or removing the entry `sign` and entries of empty value changes nothing |
| SigningStrings.TrimKeepsLines | idp/alipay.go:236 | the trim takes away the first ampersand and nothing else if and only if the first line does not begin and the last does not end with one |
| SigningStrings.StringToSignJoins | idp/alipay.go:228-237 | the string to sign is the signed lines with ampersands between them if and only if the first signed key does not begin and the last signed value does not end with one |
| SigningStrings.ParamString | controllers/casbin_cli_api.go:283-298 | the parameters are rendered in sorted key order whatever order the range took |
| SigningStrings.ParamsOfRequest | controllers/casbin_cli_api.go:283-298 | for the two parameters of a command request that is `args`, then `language` |
| SigningStrings.SplitsOnce | controllers/casbin_cli_api.go:294-298 | two texts that are not empty can be read off again if and only if the separator between them occurs neither after the first character of the one nor before the last of the other |
| SigningStrings.RequestTextDetermines | controllers/casbin_cli_api.go:270-298 | the text of a command request determines it, among those with both parameters, if and only if `&language=` stands neither after the first character of `args` nor before the last one of `language` |
| PemFormat.LineLengths | idp/alipay.go:279-289 | a bare key of n characters gives n/64 lines, rounded up, all of 64 characters but the last, which has at least one and no more than 64; an empty key gives one empty line |
| PemFormat.LinesGiveKey | idp/alipay.go:279-289 | the lines put together are the key |
| PemFormat.StripGivesBare | idp/alipay.go:275-277 | the three replacements are one pass that keeps all but line feeds, carriage returns and spaces |
| PemFormat.BareCons | idp/alipay.go:275-277 | a bare key is the key without its line feeds, carriage returns and spaces, all other characters in order |
| PemFormat.LinesOfWrap | idp/alipay.go:292-293 | the lines of the wrapped key are the header, the lines of the key, and the footer |
| PemFormat.UnwrapFormatted | idp/alipay.go:266-294 | header, footer and line feeds taken off, a formatted key is the key without its white space |
| PemFormat.FormatTwice | idp/alipay.go:266-294 | the result is PEM, equals the key exactly if that was PEM, and formatting twice is formatting once |
| PemFormat.PemStaysAsItIs | idp/alipay.go:268-272 | a key that begins with either of the two headers comes back as it is |
| PemFormat.OthersAreWrapped | idp/alipay.go:274-293 | any other key comes back as the lines of the bare key between header and footer |
| PemFormat.BreakLines | idp/alipay.go:280-289 | the loop joins the lines with line feeds between them |
| PemFormat.FormatPrivateKey | idp/alipay.go:266-294 | the function as written formats the key |
| Translations.CopyI18nData | i18n/generate.go:161-170 | the copy has equal words in fresh maps of its own, one for each namespace |
| Translations.ApplyData | i18n/util.go:65-81 | in place, the words become exactly the first ones, each with the value of the second where there is one |
| Translations.ApplyPairs | i18n/util.go:73-79 | the same for the words of one namespace |
| Translations.OwnFile | i18n/util.go:37-43 | two files are the same if and only if the languages are and both or neither of the categories is "backend" |
| Translations.PathsOfCategories | i18n/util.go:37-43 | the files of the backend lie in i18n/locales, those of every other category in web/src/locales |
| Translations.MergeAt | i18n/util.go:65-81 | merged data has exactly the fresh words, each with its old translation if it has one |
| JsonStrings.UnescapeString | i18n/util.go:57-58 | what the replacement of escaped ampersands leaves of a quoted string |
| JsonStrings.ReadWritten | i18n/util.go:45-63 | a string is read back after the replacement if and only if it has no backslash directly before `u0026`; otherwise reading fails |
| JsonStrings.ReadShort | i18n/util.go:45-54 | the two-character escapes that are read, the slash among them |
| JsonStrings.ReadSurrogates | i18n/util.go:45-54 | two escapes may spell one character from U+10000 on |
| JsonStrings.ReadHalf | i18n/util.go:45-54 | half of such a pair without the other is read as U+FFFD |
| JsonStrings.HexDigitsRead | i18n/util.go:45-54 | the digits of an escape are read in either case |
| JsonStrings.ReadBadHex | i18n/util.go:45-54 | an escape with any other character in place of a digit is not read |
| JsonStrings.ReadNothing | i18n/util.go:45-54 | no other escape is read, nor a control character |
| JsonStrings.ShortEscapesOfGo | i18n/util.go:57 | quotes, backslashes and the usual white space are written with a backslash and one character |
| JsonStrings.ScriptEscapesOfGo | i18n/util.go:57-58 | ampersands and angle brackets are written as \u0026, \u003c and \u003e |
| JsonStrings.ControlEscapeOfGo | i18n/util.go:57 | other control characters are written with four digits |
| JsonStrings.LineEscapesOfGo | i18n/util.go:57 | so are the two line separators |
| JsonStrings.NoOtherEscapes | i18n/util.go:57 | of the characters from the space on only these and two line separators are escaped |
| JsonStrings.BrokenIffOccurs | i18n/util.go:58 | the recursive test finds exactly the strings in which these six characters occur |
| TranslationFile.LexText | i18n/util.go:45-63 | the whole text of a file has the tokens it was written from if and only if none of its strings is broken |
| TranslationFile.PiecesOfOne | i18n/util.go:56-63 | a namespace stands on a line of its own, indented by two spaces, with its words in the order of their keys |
| TranslationFile.TwoPairs | i18n/util.go:56-63 | words stand on lines of their own, indented by four spaces, with a comma between them |
| TranslationFile.NoPieces | i18n/util.go:56-63 | an object without entries is a pair of braces |
| TranslationFile.LexSpaces | i18n/util.go:45-54 | white space before a token is skipped |
| TranslationFile.LexMarks | i18n/util.go:45-54 | braces, colons and commas are tokens |
| TranslationFile.LexNull | i18n/util.go:45-54 | so is the word null |
| TranslationFile.LexOther | i18n/util.go:45-54 | a text that goes on with anything else but a string is malformed |
| TranslationFile.ReadTokensOf | i18n/util.go:45-54 | null as a whole is a file without words; a file without a colon, without an end, or with more after its end cannot be read |
| TranslationFile.ReadOther | i18n/util.go:45-54 | nor one with another value for a namespace, or another mark after an entry |
| TranslationFile.ReadNullNamespace | i18n/util.go:45-54 | a namespace that is null has no words |
| TranslationFile.ReadPairsOfKey | i18n/util.go:45-54 | a word that is null is empty, and of two words for a key the last one counts |
| TranslationFile.ReadBack | i18n/util.go:45-63 | a written file is read back as the same data if no string in it is broken, and not at all otherwise |
| TranslationFile.SpelledOutIsLost | i18n/util.go:58 | a file with the word made of these six characters cannot be read again |
| Translations.AppliedInAnyOrder | i18n/generate.go:172-180 | for every list of languages in any order, a run that gets through turns each listed file into the merge of the fresh words with its own old content, and changes no other file |
| Translations.OrderDoesNotMatter | i18n/generate.go:172-180 | runs over the same languages in different orders give the same files |
| Translations.FirstRun | i18n/generate.go:172-180 | a list of different languages gets through if and only if all their files can be read |
| Translations.SecondRunChangesNothing | i18n/generate.go:172-180 | a second run over the same languages changes nothing if no merged string has a backslash directly before `u0026`, and panics otherwise |
| Translations.TranslationsSurvive | i18n/generate.go:172-180 | a regeneration in between changes the final data if and only if it lacked a translated word that is used in the end |
| Translations.Locales.ReadI18nFile | i18n/util.go:45-54 | gives the data of the text, or fails where the code panics |
| Translations.Locales.WriteI18nFile | i18n/util.go:56-63 | stores the indented text of the data, with escaped ampersands replaced |
| Translations.Locales.ApplyToOtherLanguage | i18n/generate.go:172-180 | one file becomes the merge, or nothing is written if it cannot be read; the shared fresh data is as it was |
| Translations.Locales.Generate | i18n/generate_test.go:21-35 | the sequence of languages regenerates exactly their files, or stops at one that cannot be read; the shared fresh data is as it was |
| TempFiles.ConsumedIffOddRun | controllers/casbin_cli_api.go:132-158 | a value is consumed if and only if an odd number of flags stands directly before it |
| TempFiles.ConsumedAfterFlag | controllers/casbin_cli_api.go:136-152 | a value is consumed if and only if directly after "-m" or "-p" that was not itself consumed |
| TempFiles.ExpandGivesArgs | controllers/casbin_cli_api.go:132-158 | file contents put back for file names give the arguments if and only if every passed-through argument that is a generated name equals its content |
| TempFiles.PositionsGiveArgs | controllers/casbin_cli_api.go:132-158 | by position, consumed places name a file that holds the argument and all other places hold the argument itself |
| TempFiles.FileSystem.WriteTempFile | controllers/casbin_cli_api.go:137-148 | one new file with the value, or with a part of it if writing fails, or no change if creation fails |
| TempFiles.FileSystem.MoveValue | controllers/casbin_cli_api.go:137-151 | one flag and its value: the flag stays, the name of a new file that holds the value takes its place; if the file cannot be made, nothing changes |
| TempFiles.FileSystem.ProcessArgsToTempFiles | controllers/casbin_cli_api.go:132-158 | for every first failing system call, or none: on success as many arguments, with new, distinct files one to one and in order for the consumed values; on failure exactly the files made before it, with what they hold |
| TempFiles.FileSystem.RunWithTempFiles | controllers/casbin_cli_api.go:222-231 | afterwards the directory is as before if and only if no system call fails or the first to fail is the creation of the first file |

## Left out

- The database, sessions, OAuth tokens, CAS, SAML, MFA, invitations and user linking: the handlers see their answers as arbitrary values.
- HTTP, network clients of identity providers, captcha, mail and notification, the downloader of the command line tools, the policy engine, error texts and their translation at run time (`Translate`).
- Cryptography: SHA-256, HMAC, RSA and PBKDF2 are not modelled; key derivation is a parameter, and nothing is said about collisions of the hash over the cache key or over the lock name.
- The cached version of a command line tool (`getCLIVersion`): a look-up in a map that adds only an easy member.
- Go panics: where the code would panic, the model gives an error value (`IpLocator.Locator.Init`, `IpLocator.Describe`) or excludes the call as stated below.
- DeviceRuns.RunInv: device codes are assumed fresh and user codes are assumed never to be device codes; no code is an account name or empty. User codes may repeat, and approvers and pollers may send any string.
- DeviceServer.Server.DeviceAuth: the handlers of the class read one instant of the clock; in the machine of `DeviceFlow` time passes between all steps.
- CacheKey.KeyInjective: bytes of invalid UTF-8 in arguments are all written as the replacement character, so their identity is not told apart, in the code as in the model; arguments decoded from a request have none.
- CommandCacheStore.Store.Get: the class runs one call at a time; locks, threads and interleaving are in the machine of `CommandCache`.
- IpLocator.Locator.FindByUint: demands a table with sorted bounds, a last bound of 0xffffffff and an index that points to the first record of each octet, which `init` does not check.
- IpLocator.Locator.Init: data read from a file and the textual form of addresses are not part of the model.
- PhoneUniqueness.UniqueIffGetAlong: all applications of an organization are taken to offer phone sign-in; sign-ups of others lock nothing, and edits of accounts by administrators do not take part. Codes are any texts that are not empty.
- PhoneSignin.OneUsePerCode: the age of a code and failed guesses are part of the checks that may fail; sending a code, which holds the lock of the number, is one step.
- PhoneOwners.EntersIffFound: for forms that ask for a sign-up where nobody has the number it says nothing; for these there is `PhoneOwners.SignInsOfRuns`.
- UserLookup.GetUserByFields: covers texts without `@`, which is what phone sign-in has; a text with one is also looked up as an e-mail address. Trimming and lower case are an arbitrary function.
- DeviceTokens.TokenIsApproversIff: the approver's name is one that the look-up takes as it is, neither trimmed nor put into lower case; checks of scope and of forbidden users are left out.
- PhoneSigninHandlers.Controller.PreparePhoneSignin: an argument counts as a phone number if it has no `@`; the generated name and password of a new account are not modelled.
- PhoneSigninHandlers.Controller.CheckAndAdd: every check before adding the account is an arbitrary answer; name and identifier of the account are arbitrary, its other fields are not modelled.
- PhoneSigninHandlers.Controller.Login: sign-in by password, face, e-mail or another provider, the second factor and the session are arbitrary answers.
- Consent.User.GrantConsent: the checks of client and session, and the writing of the user to the database, are left out.
- DjangoPassword.CheckOfHashed: passwords and salts are strings of characters, whose bytes are left to the key derivation.
- UploadNaming.FreeName: demands a path that is not empty, as the handler does; no failure of the database count; and a database whose escape character is no wildcard and no digit and which takes neither it nor the percent sign for another character. Which characters count as the same otherwise is left open. Truncating a path that is too long, the escaping done for one provider, and Windows paths are left out.
- UploadNaming.NewIffEscapesAtEnd: keys with both wildcards and escape characters are covered by `NewIffFindsItself` only.
- SigningStrings.DataCheckString: values are already text; how a number of the login data is turned into text is left out.
- SigningStrings.GetStringToSign: demands that every key has at least one value, as a form that was filled with single values has; the code panics otherwise.
- Translations.Locales.Generate: a file is the text of nested objects of strings; collecting the words from the program text, bytes that are not valid UTF-8, and failing writes are left out.
- Translations.OwnFile: compares path texts; a language is taken to be a plain directory name.
- TranslationFile.ReadBack: the reader covers what a translation file may hold (objects, strings, null); a value of another type fails, as it does in the code.
- TempFiles.FileSystem.RunWithTempFiles: the command itself is taken not to touch the directory, and removing a file to succeed.
