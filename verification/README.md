# NetflixClone backend rules, modelled in Dafny

This project models the rule layer of the NetflixClone streaming service. That layer is the ASP.NET backend's services and repositories that sit between the HTTP controllers and the MySQL database, plus the small duration helpers the web client uses to report viewing progress. It covers:

- the one-time codes: generation, two-factor login and password reset, and the `AuthController` flows that combine them;
- accounts and profiles: registration, login, the five-profile cap and the kids-maturity rule;
- the catalogue: titles, episodes, search, new releases and trending;
- each profile's My List and watch history.

The database is an immutable `Db` value: one `Table` per entity set, each a sequence of rows. A row carries the common entity fields: identity, creation instant, optional update instant and the soft-delete flag. Every service operation is a pure function from a store to a `Result` and a new store. A thrown exception becomes `Err`; a `null` lookup becomes `None`.

Three inputs the C# code reads from its environment are explicit parameters:

- the current instant `now`, in 100-nanosecond ticks;
- the 32-bit value the random source yields;
- whether an e-mail was sent.

Password hashing is an ideal hash: a password verifies exactly against its own hash. Login tokens are opaque values naming their user.

Modules follow the program's structure:

| module | models |
|---|---|
| `Wrappers`, `Clock`, `Decimal`, `Text`, `Sequences` | `Option`/`Result` and the exceptions; `DateTime` arithmetic; decimal rendering; trimming and case folding; LINQ's filters, stable ordering, grouping and `Take` |
| `Repository` | `BaseRepository`: soft-delete tables |
| `Entities` | the entity records, the request and response shapes, hashing |
| `CodeGeneration`, `TwoFactor`, `PasswordReset`, `Auth` | `CodeGenerationService`, `TwoFactorAuthService`, `PasswordResetService`, the orchestration in `AuthController` |
| `Users`, `Profiles` | `UserService`/`UserRepository`, `ProfileService`/`ProfileRepository` |
| `Catalogue`, `Episodes` | `ContentService`/`ContentRepository`, `EpisodeService`/`EpisodeRepository` |
| `MyList`, `WatchHistory` | `MyListService`/`MyListRepository`, `WatchHistoryService`/`WatchHistoryRepository` |
| `ClientDuration` | `formatTimeSpan`, `parseDurationToSeconds` and the progress payload of `api.js` |

## Model

| member | source | states |
|---|---|---|
| Repository.GetAll | NetflixClone/Netflix_backend/Repositories/BaseRepository.cs:24-29 | exactly the stored rows whose soft-delete flag is clear |
| Repository.Find | NetflixClone/Netflix_backend/Repositories/BaseRepository.cs:37-43 | exactly the non-deleted rows that satisfy the predicate |
| Repository.GetById | NetflixClone/Netflix_backend/Repositories/BaseRepository.cs:31-35 | finds a row exactly when a non-deleted row with that identity is stored, and then returns that row |
| Repository.Navigate | NetflixClone/Netflix_backend/Repositories/WatchHistoryRepository.cs:19-24 | an `Include` navigation finds a row exactly when one with that identity is stored, soft-deleted or not |
| Repository.Exists | NetflixClone/Netflix_backend/Repositories/BaseRepository.cs:84-87 | true exactly when a non-deleted row with that identity is stored |
| Repository.Add | NetflixClone/Netflix_backend/Repositories/BaseRepository.cs:45-50 | appends one live row with a fresh identity and the given fields; identities stay distinct |
| Repository.Put | NetflixClone/Netflix_backend/Repositories/BaseRepository.cs:52-57 | saving a tracked entity replaces the row with its identity and leaves every other row as it was |
| Repository.Delete | NetflixClone/Netflix_backend/Repositories/BaseRepository.cs:59-69 | removes the row physically and answers true exactly when it was live; otherwise nothing changes |
| Repository.SoftDelete | NetflixClone/Netflix_backend/Repositories/BaseRepository.cs:71-82 | answers true exactly when the row was live; a missing or already deleted row leaves the table unchanged |
| Repository.LiveIdsDistinct | NetflixClone/Netflix_backend/Repositories/BaseRepository.cs:24-29 | the live rows of a table carry distinct identities |
| Repository.FindByIdsBound | NetflixClone/Netflix_backend/Repositories/ContentRepository.cs:60-62 | selecting by a list of identities yields at most one row per listed identity |
| Repository.AddThenGetById | NetflixClone/Netflix_backend/Repositories/BaseRepository.cs:45-50 | after `Add`, `GetById` of the new identity finds the new row |
| Repository.SoftDeleteEffect | NetflixClone/Netflix_backend/Repositories/BaseRepository.cs:71-82 | a soft delete keeps the row stored, flags it and stamps `UpdatedAt`, hides it from `GetById`, and keeps every other row |
| Repository.SoftDeleteTwice | NetflixClone/Netflix_backend/Repositories/BaseRepository.cs:73-77 | a second soft delete of the same identity answers false and changes nothing |
| Repository.PutUpdates | NetflixClone/Netflix_backend/Repositories/BaseRepository.cs:52-57 | after saving a live entity, its identity reads back as the saved row and every other identity as before |
| Repository.PutKeepsOthers | NetflixClone/Netflix_backend/Repositories/BaseRepository.cs:52-57 | saving one entity changes `GetById` of no other identity |
| CodeGeneration.Abs32 | NetflixClone/Netflix_backend/Services/CodeGenerationService.cs:21 | `Math.Abs` on a 32-bit value fails exactly for `int.MinValue`, otherwise gives the magnitude |
| CodeGeneration.GenerateSecureCode | NetflixClone/Netflix_backend/Services/CodeGenerationService.cs:13-24 | fails with an overflow exactly for `int.MinValue`; otherwise six digits that read back as the magnitude modulo 1000000 |
| CodeGeneration.GeneratorReachesEveryCode | NetflixClone/Netflix_backend/Services/CodeGenerationService.cs:21-22 | every six-digit code, leading zeros included, is generated from some random value |
| CodeGeneration.GeneratedCodesDifferByValue | NetflixClone/Netflix_backend/Services/CodeGenerationService.cs:21-22 | two random values give the same code exactly when their magnitudes agree modulo 1000000 |
| CodeGeneration.ValidateCode | NetflixClone/Netflix_backend/Services/CodeGenerationService.cs:26-32 | false whenever either code is null or empty |
| CodeGeneration.ValidateCodeSymmetric | NetflixClone/Netflix_backend/Services/CodeGenerationService.cs:31 | the comparison does not depend on argument order |
| CodeGeneration.ValidateCodeReflexive | NetflixClone/Netflix_backend/Services/CodeGenerationService.cs:31 | every non-empty code matches itself |
| CodeGeneration.ValidateCodeIgnoresSurroundingWhiteSpace | NetflixClone/Netflix_backend/Services/CodeGenerationService.cs:31 | white space around the typed code does not change the answer |
| CodeGeneration.ValidateCodeIgnoresCase | NetflixClone/Netflix_backend/Services/CodeGenerationService.cs:31 | upper-casing the typed code does not change the answer |
| CodeGeneration.ExpiryBoundary | NetflixClone/Netflix_backend/Services/CodeGenerationService.cs:34-37 | a code is live at exactly creation plus the expiry minutes and expired one tick later |
| CodeGeneration.ExpiryMonotone | NetflixClone/Netflix_backend/Services/CodeGenerationService.cs:36 | once expired, a code stays expired at every later instant |
| Entities.HashPassword | NetflixClone/Netflix_backend/Services/UserService.cs:241-249 | a password verifies against its own hash |
| Entities.VerifyOnlyOwnPassword | NetflixClone/Netflix_backend/Services/UserService.cs:246-249 | only the hashed password verifies against a hash |
| Entities.MergeString | NetflixClone/Netflix_backend/Services/ProfileService.cs:76-89 | a supplied value replaces the stored one exactly when it is neither null nor empty |
| Entities.ViewProfiles | NetflixClone/Netflix_backend/Services/UserService.cs:291-306 | one response per loaded profile, in order, with its identity and fields |
| Profiles.ProfilesOfUser | NetflixClone/Netflix_backend/Repositories/ProfileRepository.cs:17-22 | exactly the user's non-deleted profiles |
| Profiles.ProfileCount | NetflixClone/Netflix_backend/Repositories/ProfileRepository.cs:24-28 | the count is the length of the user's live-profile list |
| Profiles.GetProfileById | NetflixClone/Netflix_backend/Services/ProfileService.cs:29-38 | not-found exactly when the profile is missing or deleted; otherwise that profile's fields |
| Profiles.NewProfile | NetflixClone/Netflix_backend/Services/ProfileService.cs:54-62 | the request's fields, the default avatar for an empty one, and "Kids" maturity for a kids profile whatever was asked |
| Profiles.CreateProfile | NetflixClone/Netflix_backend/Services/ProfileService.cs:40-66 | not-found for an unknown user and a refusal at five live profiles, both without change; otherwise exactly one profile added |
| Profiles.MergeProfile | NetflixClone/Netflix_backend/Services/ProfileService.cs:76-94 | only non-empty supplied fields change; a kids profile's maturity, the kids flag and the owner never change |
| Profiles.UpdateProfile | NetflixClone/Netflix_backend/Services/ProfileService.cs:68-100 | not-found without change for a missing or deleted profile; otherwise the merged profile, stamped, and no other table touched |
| Profiles.DeleteProfile | NetflixClone/Netflix_backend/Services/ProfileService.cs:102-105 | a soft delete: true exactly for a live profile, which stays stored but is no longer live |
| Profiles.CreateCounts | NetflixClone/Netflix_backend/Services/ProfileService.cs:48-64 | a successful create raises its user's count by one and no other user's count |
| Profiles.CreateKeepsCap | NetflixClone/Netflix_backend/Services/ProfileService.cs:48-52 | no user is taken above five live profiles |
| Profiles.DeleteFreesPlace | NetflixClone/Netflix_backend/Services/ProfileService.cs:102-105 | deleting lowers the owner's count by one and leaves other users' counts alone |
| Profiles.MergeProfileIdempotent | NetflixClone/Netflix_backend/Services/ProfileService.cs:76-94 | repeating the same update changes nothing further |
| Profiles.MergeProfileEmpty | NetflixClone/Netflix_backend/Services/ProfileService.cs:76-94 | an update that supplies nothing leaves every field as it was |
| Users.GetByEmail | NetflixClone/Netflix_backend/Repositories/UserRepository.cs:15-19 | a non-deleted user with exactly this address, and none exactly when no live user holds it |
| Users.GetUserWithProfiles | NetflixClone/Netflix_backend/Repositories/UserRepository.cs:21-26 | found exactly for a live user, with exactly its non-deleted profiles |
| Users.IsEmailUnique | NetflixClone/Netflix_backend/Repositories/UserRepository.cs:28-31 | true exactly when no stored user, soft-deleted ones included, holds the address |
| Users.GetUserByEmail | NetflixClone/Netflix_backend/Services/UserService.cs:139-148 | found exactly when `GetByEmail` finds the user, with no profiles loaded |
| Users.NewUser | NetflixClone/Netflix_backend/Services/UserService.cs:43-51 | the request's names and address, active, on the "Basic" plan whatever was asked, with a hash the password verifies against |
| Users.FirstProfile | NetflixClone/Netflix_backend/Services/UserService.cs:52-62 | one adult, non-kids profile named after the first name, with the default avatar and "en-US" |
| Users.Register | NetflixClone/Netflix_backend/Services/UserService.cs:29-92 | an address in live use is refused without change; one held by a deleted user hits the unique index; otherwise one user and one profile added, with a token |
| Users.Login | NetflixClone/Netflix_backend/Services/UserService.cs:94-126 | succeeds exactly for a live user whose password verifies and who is active; the token's subject is that user |
| Users.UpdateUser | NetflixClone/Netflix_backend/Services/UserService.cs:150-167 | not-found without change for a missing user; otherwise the stored user reads back with each name and the picture replaced, an omitted one by the empty string, and a new update stamp, every other user reads as before, and the returned view carries the new values |
| Users.ChangePassword | NetflixClone/Netflix_backend/Services/UserService.cs:169-187 | not-found for a missing user; false without change exactly when the current password fails; otherwise the stored user reads back with only its hash (now of the new password) and its update stamp changed, and every other user reads as before |
| Users.DeactivateUser | NetflixClone/Netflix_backend/Services/UserService.cs:204-217 | not-found for a missing user; otherwise true, the stored user reads back inactive with only that flag and its update stamp changed, and every other user reads as before |
| Users.UpdatePassword | NetflixClone/Netflix_backend/Services/UserService.cs:224-237 | true exactly when a live user has the address; then only that user's row changes, to its new hash stamped now, and every other user reads as before; false leaves the store unchanged |
| Users.GetByEmailUnique | NetflixClone/Netflix_backend/Repositories/UserRepository.cs:15-19 | with unique addresses the lookup finds the one live holder |
| Users.PutKeepsUniqueEmails | NetflixClone/Netflix_backend/Services/UserService.cs:150-237 | the account updates, which keep the address, keep addresses unique |
| Users.DeletedUserHoldsAddress | NetflixClone/Netflix_backend/Repositories/UserRepository.cs:15-31 | a soft-deleted holder hides the address from `GetByEmail` but not from `IsEmailUnique` |
| Users.LoginFailuresIndistinguishable | NetflixClone/Netflix_backend/Services/UserService.cs:96-104 | an unknown address and a wrong password give the identical response |
| Users.DeactivatedNeedsPassword | NetflixClone/Netflix_backend/Services/UserService.cs:106-113 | "Account is deactivated" is only reported once the password has verified |
| Users.RegisterThenLogin | NetflixClone/Netflix_backend/Services/UserService.cs:29-126 | a new account logs in with its password and addresses stay unique |
| Users.RegisterCreatesOneProfile | NetflixClone/Netflix_backend/Services/UserService.cs:52-62 | a new account has exactly one live profile, the default one |
| Users.DeactivateThenLoginFails | NetflixClone/Netflix_backend/Services/UserService.cs:204-217 | after deactivation, login fails with any password |
| Users.ChangePasswordThenLogin | NetflixClone/Netflix_backend/Services/UserService.cs:169-187 | after a change the new password logs in to an active account and a different old one does not |
| Users.UpdatePasswordThenLogin | NetflixClone/Netflix_backend/Services/UserService.cs:224-237 | after the update the new password is the one that verifies |
| Users.UpdateUserClearsOmitted | NetflixClone/Netflix_backend/Services/UserService.cs:158-160 | an update that omits the names clears them |
| TwoFactor.RecordIndex | NetflixClone/Netflix_backend/Services/TwoFactorAuthService.cs:46 | the position of the user's first record, and none exactly when the user has no record |
| TwoFactor.RecordOf | NetflixClone/Netflix_backend/Services/TwoFactorAuthService.cs:46 | the user's first record, if it has one |
| TwoFactor.NewRecord | NetflixClone/Netflix_backend/Services/TwoFactorAuthService.cs:63-69 | a new record is enabled, unverified, without a code, and its code expiry is the minimum instant |
| TwoFactor.Enable | NetflixClone/Netflix_backend/Services/TwoFactorAuthService.cs:32-92 | "User not found" and "already enabled" leave the store unchanged; success exactly for a live user not yet enabled, touching only the two-factor records |
| TwoFactor.Disable | NetflixClone/Netflix_backend/Services/TwoFactorAuthService.cs:94-153 | the password is checked before the enabled state; success exactly for an enabled user with the right password, flipping only the enabled flag and update instant |
| TwoFactor.Status | NetflixClone/Netflix_backend/Services/TwoFactorAuthService.cs:155-189 | "User not found" for an unknown address; otherwise the enabled state, a user without a record counting as disabled |
| TwoFactor.IsTwoFactorEnabled | NetflixClone/Netflix_backend/Services/TwoFactorAuthService.cs:262-277 | true exactly when the live user's record is enabled |
| TwoFactor.Verify | NetflixClone/Netflix_backend/Services/TwoFactorAuthService.cs:191-260 | rejects in order for a missing user, a disabled record, an expired code and an unequal code, without change; success marks the record verified, keeps the code and returns a token |
| TwoFactor.SendVerificationCode | NetflixClone/Netflix_backend/Services/TwoFactorAuthService.cs:279-307 | false without change for a missing user or disabled record; otherwise a new code with a ten-minute expiry is stored and the answer is the send outcome |
| TwoFactor.SetRecordKeepsOne | NetflixClone/Netflix_backend/Services/TwoFactorAuthService.cs:56-60 | changing a record in place keeps every user to at most one record |
| TwoFactor.EnableKeepsOneRecord | NetflixClone/Netflix_backend/Services/TwoFactorAuthService.cs:46-71 | `Enable` never gives a user a second record |
| TwoFactor.EnableThenEnabled | NetflixClone/Netflix_backend/Services/TwoFactorAuthService.cs:46-81 | after a successful enable the user is enabled and a second enable is refused as already enabled |
| TwoFactor.EnableKeepsCodeFields | NetflixClone/Netflix_backend/Services/TwoFactorAuthService.cs:56-60 | re-enabling an existing record keeps its code, its expiry and its verified flag |
| TwoFactor.FreshRecordRejectsAsExpired | NetflixClone/Netflix_backend/Services/TwoFactorAuthService.cs:63-69 | before any code is sent, a new record rejects every code as expired |
| TwoFactor.DisableChecksPasswordFirst | NetflixClone/Netflix_backend/Services/TwoFactorAuthService.cs:108-117 | a wrong password gives "Invalid password" and changes nothing, whatever the two-factor state |
| TwoFactor.EnableThenDisable | NetflixClone/Netflix_backend/Services/TwoFactorAuthService.cs:56-133 | switching on and off again restores the record apart from its update instant |
| TwoFactor.RecordIndexAfterSet | NetflixClone/Netflix_backend/Services/TwoFactorAuthService.cs:46 | an in-place change keeps the user's record where the lookup finds it |
| TwoFactor.SentCodeWindow | NetflixClone/Netflix_backend/Services/TwoFactorAuthService.cs:289-295 | the sent code verifies through the last tick of its ten-minute window and is refused as expired afterwards |
| TwoFactor.VerifiedCodeReplays | NetflixClone/Netflix_backend/Services/TwoFactorAuthService.cs:215-236 | a verified code verifies again at any later instant inside its window |
| TwoFactor.StatusAgrees | NetflixClone/Netflix_backend/Services/TwoFactorAuthService.cs:169-176 | the status report and the boolean check agree |
| PasswordReset.AnyUserWithEmail | NetflixClone/Netflix_backend/Services/PasswordResetService.cs:39 | a stored user with the address, soft-deleted ones included, and none exactly when no stored user holds it |
| PasswordReset.ResetsFor | NetflixClone/Netflix_backend/Services/PasswordResetService.cs:33-35 | exactly the reset records of the address |
| PasswordReset.Create | NetflixClone/Netflix_backend/Services/PasswordResetService.cs:29-66 | null without change for an unknown address or a rejected draw; otherwise the generated six-digit code, the address's only record, unused, expiring ten minutes after creation, other addresses' records kept |
| PasswordReset.ResetsAfterCreate | NetflixClone/Netflix_backend/Services/PasswordResetService.cs:33-57 | once the earlier records are removed, the new record is the address's only one |
| PasswordReset.Verify | NetflixClone/Netflix_backend/Services/PasswordResetService.cs:68-89 | true exactly when the first unused record with the address and the exact code is within ten minutes of its creation; the stored expiry is not read |
| PasswordReset.MarkUsed | NetflixClone/Netflix_backend/Services/PasswordResetService.cs:91-112 | true exactly when some record has the address and code, used or not; false leaves the store unchanged; the first such record becomes used, stamped with the current instant, and every other record is unchanged |
| PasswordReset.IsExpired | NetflixClone/Netflix_backend/Services/PasswordResetService.cs:114-131 | true when no record has the address and code; otherwise whether the first such record, used or not, is past ten minutes from its creation |
| PasswordReset.Cleanup | NetflixClone/Netflix_backend/Services/PasswordResetService.cs:133-147 | keeps exactly the records not past their stored expiry |
| PasswordReset.CreateOnlyRecord | NetflixClone/Netflix_backend/Services/PasswordResetService.cs:33-37 | after a create, every other record has another address |
| PasswordReset.CreateThenVerify | NetflixClone/Netflix_backend/Services/PasswordResetService.cs:47-83 | a fresh code verifies exactly until the end of its ten-minute window |
| PasswordReset.SecondCreateRevokesFirst | NetflixClone/Netflix_backend/Services/PasswordResetService.cs:33-58 | after a second create with a different code, the first code never verifies again |
| PasswordReset.MarkUsedThenVerifyFails | NetflixClone/Netflix_backend/Services/PasswordResetService.cs:95-106 | a code marked used never verifies again |
| PasswordReset.StoredExpiryAgrees | NetflixClone/Netflix_backend/Services/PasswordResetService.cs:52-53 | after a create, the expiry read from the creation instant and the stored expiry agree |
| PasswordReset.VerifyIsNotExpired | NetflixClone/Netflix_backend/Services/PasswordResetService.cs:68-131 | after a create, verifying and the expiry check give opposite answers for the issued code |
| PasswordReset.CreateKeepsOneReset | NetflixClone/Netflix_backend/Services/PasswordResetService.cs:33-58 | create keeps at most one record per address |
| PasswordReset.MarkUsedKeepsOneReset | NetflixClone/Netflix_backend/Services/PasswordResetService.cs:91-112 | marking keeps at most one record per address |
| PasswordReset.CleanupKeepsOneReset | NetflixClone/Netflix_backend/Services/PasswordResetService.cs:133-147 | cleanup keeps at most one record per address |
| PasswordReset.MarkUsedConsumes | NetflixClone/Netflix_backend/Services/PasswordResetService.cs:68-112 | with one record per address, marking a code that verifies succeeds and the code never verifies again |
| PasswordReset.UnknownAddressChangesNothing | NetflixClone/Netflix_backend/Services/PasswordResetService.cs:39-43 | an address no account holds gets no code and nothing is removed |
| PasswordReset.CleanupIdempotent | NetflixClone/Netflix_backend/Services/PasswordResetService.cs:137-142 | a second cleanup at the same instant removes nothing more |
| Auth.Login | NetflixClone/Netflix_backend/Controllers/AuthController.cs:54-96 | a request failing model validation gets the automatic 400 without change; bad credentials give 401 with the service's failure and 2FA is not consulted; without 2FA the service's reply unchanged; with 2FA a code is sent and the token withheld, 200 when sent and 400 when not |
| Auth.LoginTokenOnlyWithoutTwoFactor | NetflixClone/Netflix_backend/Controllers/AuthController.cs:57-96 | a token is handed out exactly for a valid request naming a live, active account whose password verifies and whose two-factor is off, and it names that account; only the two-factor path writes, and never to the accounts |
| Auth.ForgotPassword | NetflixClone/Netflix_backend/Controllers/AuthController.cs:98-159 | an invalid request gets 400; an unknown address gets a success reply with no change; otherwise a reset is created and the reply follows the send outcome |
| Auth.ResetPassword | NetflixClone/Netflix_backend/Controllers/AuthController.cs:201-251 | an invalid, expired or used code fails with no change; success exactly when the code verifies and the password update succeeds, and only then is the code marked used |
| Auth.ForgotPasswordRepliesDiffer | NetflixClone/Netflix_backend/Controllers/AuthController.cs:110-141 | the unknown-address reply and the real-send reply both report success but are not identical |
| Auth.FailedSendLeavesLiveCode | NetflixClone/Netflix_backend/Controllers/AuthController.cs:120-149 | a failed send is reported as failure although a code is saved and verifies |
| Auth.ResetPasswordOnce | NetflixClone/Netflix_backend/Controllers/AuthController.cs:211-232 | after a successful reset the same request fails and changes nothing |
| Auth.ResetPasswordThenLogin | NetflixClone/Netflix_backend/Controllers/AuthController.cs:222-232 | after a successful reset the new password logs in exactly when the account is active, and any other password fails |
| Catalogue.ViewEpisodes | NetflixClone/Netflix_backend/Services/ContentService.cs:206-223 | one response per loaded episode, in order, with its identity and fields |
| Catalogue.ByGenre | NetflixClone/Netflix_backend/Repositories/ContentRepository.cs:18-23 | exactly the live titles whose genre contains the argument |
| Catalogue.ByType | NetflixClone/Netflix_backend/Repositories/ContentRepository.cs:25-30 | exactly the live titles whose content type equals the argument |
| Catalogue.EpisodesOf | NetflixClone/Netflix_backend/Repositories/ContentRepository.cs:35 | exactly the live episodes of the title |
| Catalogue.WithEpisodes | NetflixClone/Netflix_backend/Repositories/ContentRepository.cs:32-37 | found exactly for a live title, together with exactly its live episodes |
| Catalogue.NewReleases | NetflixClone/Netflix_backend/Repositories/ContentRepository.cs:65-73 | `limit` live titles, or all of them when fewer, drawn from the live rows without repetition (a sub-multiset), ordered by release year and then creation instant, newest first |
| Catalogue.NewReleasesAreNewest | NetflixClone/Netflix_backend/Repositories/ContentRepository.cs:67-72 | a live title is left out only when the list is full, and then it is no newer than any title listed |
| Catalogue.RecentWatches | NetflixClone/Netflix_backend/Repositories/ContentRepository.cs:41-44 | exactly the watch records of the last thirty days, soft-deleted ones included |
| Catalogue.RecentTitles | NetflixClone/Netflix_backend/Repositories/ContentRepository.cs:43-45 | one recent record per title watched in the window, every such title covered, empty exactly when nothing was watched |
| Catalogue.TopGroups | NetflixClone/Netflix_backend/Repositories/ContentRepository.cs:43-49 | recent records with distinct titles, most watched first, as many as `limit` or the number of titles watched in the window, whichever is smaller; nothing for a non-positive limit |
| Catalogue.TrendingIds | NetflixClone/Netflix_backend/Repositories/ContentRepository.cs:43-49 | distinct titles, each watched in the window, in non-increasing watch count; empty exactly when the limit is not positive or nothing was watched in the window |
| Catalogue.TrendingCut | NetflixClone/Netflix_backend/Repositories/ContentRepository.cs:43-49 | a recently watched title left out of the ids has its group among the ranked groups but outside the cut |
| Catalogue.Trending | NetflixClone/Netflix_backend/Repositories/ContentRepository.cs:39-63 | with no watching in the window (or a non-positive limit), the `limit` newest titles by release year; otherwise exactly the live titles among the most watched |
| Catalogue.TrendingBound | NetflixClone/Netflix_backend/Repositories/ContentRepository.cs:48-62 | trending never holds more than `limit` titles |
| Catalogue.TrendingIsMostWatched | NetflixClone/Netflix_backend/Repositories/ContentRepository.cs:43-49 | a recently watched title is left out only when the cut is full, and then it was watched no more often than any title kept |
| Catalogue.TrendingFallback | NetflixClone/Netflix_backend/Repositories/ContentRepository.cs:51-58 | without a watch record in the last thirty days, trending is the newest titles by release year |
| Catalogue.GetContentById | NetflixClone/Netflix_backend/Services/ContentService.cs:22-31 | not-found exactly for a missing or deleted title; otherwise the title with its live episodes |
| Catalogue.CreateContent | NetflixClone/Netflix_backend/Services/ContentService.cs:51-72 | exactly one row is appended (the request with a fresh identity, created now, not deleted) and every earlier row is kept; in a well-formed table the identity was unused, the table stays well-formed and `GetById` then finds the request |
| Catalogue.MergeContent | NetflixClone/Netflix_backend/Services/ContentService.cs:82-140 | each non-empty string (title, description, genre, maturity rating, duration, thumbnail, cover image, video, director, cast) and each supplied number (release year, seasons) replaces the stored value; the content type never changes |
| Catalogue.UpdateContent | NetflixClone/Netflix_backend/Services/ContentService.cs:74-148 | not-found without change for a missing title; otherwise the merged title, stamped, returned with its live episodes |
| Catalogue.DeleteContent | NetflixClone/Netflix_backend/Services/ContentService.cs:150-153 | a soft delete, true exactly for a live title; after it the row is still stored but no longer live, and every other title reads as before; false leaves the store unchanged |
| Catalogue.DeleteContentThenNotFound | NetflixClone/Netflix_backend/Services/ContentService.cs:22-31 | after deleting a live title, looking it up is not-found, and every other title looks up as before |
| Catalogue.Search | NetflixClone/Netflix_backend/Services/ContentService.cs:167-181 | nothing for a null or empty term; otherwise exactly the live titles whose title, description, cast or director contains it |
| Catalogue.EmptyGenreSelectsAll | NetflixClone/Netflix_backend/Repositories/ContentRepository.cs:21 | the empty genre selects every live title |
| Catalogue.MergeContentIdempotent | NetflixClone/Netflix_backend/Services/ContentService.cs:82-140 | repeating the same update changes nothing further |
| Catalogue.EmptyUpdateTouchesOnlyStamp | NetflixClone/Netflix_backend/Services/ContentService.cs:82-142 | an update that supplies nothing, content type included, changes only `UpdatedAt` |
| Episodes.ByContent | NetflixClone/Netflix_backend/Repositories/EpisodeRepository.cs:17-24 | a permutation of exactly the show's live episodes, ordered by season and then number |
| Episodes.BySeason | NetflixClone/Netflix_backend/Repositories/EpisodeRepository.cs:26-34 | exactly the live episodes of that season of the show, ordered by number |
| Episodes.BySeasonIsPartOfByContent | NetflixClone/Netflix_backend/Repositories/EpisodeRepository.cs:17-34 | the season listing is the season's part of the show listing, in the same order |
| Episodes.ByNumber | NetflixClone/Netflix_backend/Repositories/EpisodeRepository.cs:36-43 | a live episode matching show, season and number, and none exactly when there is no such episode |
| Episodes.GetEpisodeById | NetflixClone/Netflix_backend/Services/EpisodeService.cs:22-31 | not-found exactly for a missing or deleted episode; otherwise its fields |
| Episodes.GetEpisodeByNumber | NetflixClone/Netflix_backend/Services/EpisodeService.cs:45-54 | the season-and-number not-found message exactly when no live episode matches; otherwise one that matches all three keys |
| Episodes.CreateEpisode | NetflixClone/Netflix_backend/Services/EpisodeService.cs:56-83 | not-found for a missing show, a refusal unless its type is exactly "TV Show", both without change; otherwise the episode appended as given |
| Episodes.CreateThenListed | NetflixClone/Netflix_backend/Services/EpisodeService.cs:56-83 | a created episode is found by its identity and listed with its show's episodes |
| Episodes.DuplicateNumberShadowed | NetflixClone/Netflix_backend/Services/EpisodeService.cs:69-81 | no duplicate check: a taken season and number is still added, and the lookup keeps finding the older episode |
| Episodes.MergeEpisode | NetflixClone/Netflix_backend/Services/EpisodeService.cs:93-116 | non-empty title, description, duration, thumbnail and video replace the stored ones; show, season and number never change |
| Episodes.UpdateEpisode | NetflixClone/Netflix_backend/Services/EpisodeService.cs:85-122 | not-found without change for a missing episode; otherwise the merged episode, stamped |
| Episodes.MergeEpisodeIdempotent | NetflixClone/Netflix_backend/Services/EpisodeService.cs:93-116 | repeating the same update changes nothing further |
| Episodes.UpdateKeepsKeys | NetflixClone/Netflix_backend/Services/EpisodeService.cs:85-122 | after any update the episode keeps its show, season and number and the lookup by them still finds an episode |
| Episodes.DeleteEpisode | NetflixClone/Netflix_backend/Services/EpisodeService.cs:124-127 | a soft delete, true exactly for a live episode; false leaves the store unchanged |
| Episodes.DeleteThenNotFound | NetflixClone/Netflix_backend/Services/EpisodeService.cs:124-127 | a deleted episode is not found by its identity and no longer listed |
| MyList.ListOf | NetflixClone/Netflix_backend/Repositories/MyListRepository.cs:17-24 | exactly the profile's live entries, each as often as it is stored (the same multiset), most recently added first |
| MyList.IsContentInMyList | NetflixClone/Netflix_backend/Repositories/MyListRepository.cs:26-32 | true exactly when a live entry holds the title and profile |
| MyList.GetMyListItem | NetflixClone/Netflix_backend/Repositories/MyListRepository.cs:49-57 | a live entry for the pair, and one exactly when the title is in the list |
| MyList.InListIffListed | NetflixClone/Netflix_backend/Repositories/MyListRepository.cs:17-32 | a title is in the list exactly when the profile's listing shows an entry for it |
| MyList.StoredContent | NetflixClone/Netflix_backend/Repositories/MyListRepository.cs:21 | the listing loads an entry's title exactly when it is stored, soft-deleted or not |
| MyList.GetMyList | NetflixClone/Netflix_backend/Services/MyListService.cs:27-31 | one view per listed entry with its identity and title, the summary present exactly when the title is stored, newest first |
| MyList.AddToMyList | NetflixClone/Netflix_backend/Services/MyListService.cs:33-67 | not-found for a missing profile, then a missing title, both without change; a pair already listed returns its entry and adds nothing; otherwise one entry for the profile's owner stamped now |
| MyList.AddThenContains | NetflixClone/Netflix_backend/Services/MyListService.cs:47-66 | after a successful add the title is in the list |
| MyList.AddLeavesOneEntry | NetflixClone/Netflix_backend/Services/MyListService.cs:47-66 | with at most one entry before, a successful add leaves exactly one |
| MyList.AddTwiceLeavesOne | NetflixClone/Netflix_backend/Services/MyListService.cs:47-55 | the second add of the same pair changes nothing and leaves exactly one entry |
| MyList.RemoveFromMyList | NetflixClone/Netflix_backend/Repositories/MyListRepository.cs:34-47 | true exactly when a live entry exists, which is then soft-deleted; false leaves the store unchanged |
| MyList.RemoveDropsOneEntry | NetflixClone/Netflix_backend/Repositories/MyListRepository.cs:34-47 | a removal takes exactly one entry of the pair away and no entry of any other pair |
| MyList.RemoveSingleEntry | NetflixClone/Netflix_backend/Repositories/MyListRepository.cs:34-47 | with a single entry for the pair, the title is out of the list afterwards |
| WatchHistory.LatestPerContent | NetflixClone/Netflix_backend/Repositories/WatchHistoryRepository.cs:26-30 | records drawn from the input, one per title, latest first |
| WatchHistory.LatestPerContentIsLatest | NetflixClone/Netflix_backend/Repositories/WatchHistoryRepository.cs:26-30 | every title of the input is represented, by a record watched no earlier than any other record of that title |
| WatchHistory.ByProfile | NetflixClone/Netflix_backend/Repositories/WatchHistoryRepository.cs:17-31 | only the profile's live records, one per title, latest first |
| WatchHistory.ByProfileIsLatest | NetflixClone/Netflix_backend/Repositories/WatchHistoryRepository.cs:17-31 | every title the profile has a live record of is listed, by its latest record |
| WatchHistory.GetWatchHistoryByProfileId | NetflixClone/Netflix_backend/Services/WatchHistoryService.cs:33-45 | one view per listed record, with its identity and profile, one per title, latest first |
| WatchHistory.ContinueWatching | NetflixClone/Netflix_backend/Repositories/WatchHistoryRepository.cs:44-63 | exactly `limit` records or all of the profile's unfinished titles, whichever is fewer (none for a non-positive limit), each live, unfinished and the profile's, one per title, latest first, and a prefix of the full grouping |
| WatchHistory.ContinueWatchingIsLatest | NetflixClone/Netflix_backend/Repositories/WatchHistoryRepository.cs:44-63 | an unfinished title that misses the cut was watched no later than every title that made it, and then the cut is full |
| WatchHistory.Completed | NetflixClone/Netflix_backend/Services/WatchHistoryService.cs:175-178 | exactly the finished records among the profile's per-title history |
| WatchHistory.GetCompletedWatchHistory | NetflixClone/Netflix_backend/Services/WatchHistoryService.cs:175-188 | one view per finished title, each finished and the profile's |
| WatchHistory.LatestUnfinishedHidesOlderCompletion | NetflixClone/Netflix_backend/Services/WatchHistoryService.cs:175-178 | a title whose latest record is unfinished is not in the completed list, even with an older finished record |
| WatchHistory.FindRecord | NetflixClone/Netflix_backend/Repositories/WatchHistoryRepository.cs:35-42 | none exactly when no live record matches title, profile and (when given) episode; otherwise a matching stored record |
| WatchHistory.WildcardFindsEveryEpisode | NetflixClone/Netflix_backend/Repositories/WatchHistoryRepository.cs:38-41 | a record found for a given episode means one is also found with no episode given |
| WatchHistory.GetWatchHistoryByContentAndProfile | NetflixClone/Netflix_backend/Services/WatchHistoryService.cs:59-68 | the not-found message naming title and profile exactly when no record matches; otherwise a view of the title and profile, of the episode when one was given |
| WatchHistory.ViewRecord | NetflixClone/Netflix_backend/Services/WatchHistoryService.cs:192-218 | the view copies the record's fields, progress percentage and watched duration included; its title summary is present exactly when the title is live, its episode exactly when one is named and live |
| WatchHistory.Progress | NetflixClone/Netflix_backend/Services/WatchHistoryService.cs:98-102 | a progress write keeps identity, deletion flag, creation time, title, profile, episode and owner |
| WatchHistory.CreateOrUpdate | NetflixClone/Netflix_backend/Services/WatchHistoryService.cs:70-124 | an error exactly when the profile, title or named episode is not live, in that order and without change; otherwise only the history table changes, the found record is overwritten in place or a new record is added for the profile's owner, stamped now |
| WatchHistory.UpsertLeavesOneMatch | NetflixClone/Netflix_backend/Services/WatchHistoryService.cs:93-123 | with at most one matching record before, exactly one after a successful report |
| WatchHistory.UpsertTwiceLeavesOne | NetflixClone/Netflix_backend/Services/WatchHistoryService.cs:93-123 | reporting twice for a title never seen leaves exactly one record for it |
| WatchHistory.ReportWithoutEpisodeOverwritesEpisodeRecord | NetflixClone/Netflix_backend/Services/WatchHistoryService.cs:93-106 | a report naming no episode overwrites the first record of the title and keeps that record's episode, adding no record |
| WatchHistory.UpdateWatchHistory | NetflixClone/Netflix_backend/Services/WatchHistoryService.cs:126-142 | not-found without change for a missing record; otherwise only that record's progress is overwritten and stamped now |
| WatchHistory.GetWatchHistoryById | NetflixClone/Netflix_backend/Services/WatchHistoryService.cs:48-57 | not-found exactly when the record is missing or deleted; otherwise the view of a live stored record with that identity |
| WatchHistory.DeleteWatchHistory | NetflixClone/Netflix_backend/Services/WatchHistoryService.cs:144-147 | a soft delete, true exactly for a live record; after it the row is still stored but no longer live, and every other record reads as before; false leaves the store unchanged; only the history table changes |
| WatchHistory.DeleteWatchHistoryThenNotFound | NetflixClone/Netflix_backend/Services/WatchHistoryService.cs:48-57 | after deleting a live record, looking it up is not-found, and every other record reads as before |
| WatchHistory.ContinueTitle | NetflixClone/Netflix_backend/Services/WatchHistoryService.cs:160-162 | the show's title alone without an episode; with one, starts with the show's title and ends with the episode's title |
| WatchHistory.ContinueThumbnail | NetflixClone/Netflix_backend/Services/WatchHistoryService.cs:163-165 | the episode's picture when there is an episode with a non-empty one; otherwise the show's |
| WatchHistory.ContinueEntry | NetflixClone/Netflix_backend/Services/WatchHistoryService.cs:156-169 | a null dereference exactly when the title row is gone; otherwise the record's title, episode, progress and time |
| WatchHistory.ContinueEntries | NetflixClone/Netflix_backend/Services/WatchHistoryService.cs:154-170 | fails exactly when some record's title row is gone; otherwise one entry per record in order |
| WatchHistory.GetContinueWatching | NetflixClone/Netflix_backend/Services/WatchHistoryService.cs:149-173 | fails with a null reference exactly when a listed record's title row is gone; otherwise as many entries as the repository's list, same titles and episodes, at most `limit`, latest first |
| ClientDuration.JsRem | NetflixClone/Netflix_Frontend/src/services/api.js:243-244 | the truncating remainder: the Euclidean one for a non-negative dividend, in (-b, 0] for a negative one |
| ClientDuration.FormatTimeSpanRoundTrip | NetflixClone/Netflix_Frontend/src/services/api.js:241-246 | for non-negative seconds, the "HH:MM:SS" text reads back as whole hours, minutes below 60 and seconds below 60 that sum to the input |
| ClientDuration.ClockSplit | NetflixClone/Netflix_Frontend/src/services/api.js:242-244 | hours, minutes and seconds recompose the number, minutes and seconds below 60 |
| ClientDuration.ReadClock | NetflixClone/Netflix_Frontend/src/services/api.js:245 | a clock text reads back to fields whose minutes and seconds have two digits |
| ClientDuration.FirstMatch | NetflixClone/Netflix_Frontend/src/services/api.js:254-255 | the leftmost position at or after the start where a digit run is followed by the unit letter, or none when there is no such position |
| ClientDuration.ParseDurationToSeconds | NetflixClone/Netflix_Frontend/src/services/api.js:249-261 | a number passes through; a missing or empty text is 0; a text counts 3600 per hour and 60 per minute of its first matches |
| ClientDuration.AbsentUnitCountsZero | NetflixClone/Netflix_Frontend/src/services/api.js:257-258 | a text without the unit letter contributes nothing for that unit |
| ClientDuration.HoursAndMinutesRoundTrip | NetflixClone/Netflix_Frontend/src/services/api.js:249-261 | "<h>h <m>m" parses to 3600h + 60m for every h and m |
| ClientDuration.ParseExample | NetflixClone/Netflix_Frontend/src/services/api.js:248 | worked example: "2h 30m" parses to 9000 seconds |
| ClientDuration.OrZero | NetflixClone/Netflix_Frontend/src/services/api.js:268 | the result is never a missing argument, and a non-empty text is kept as it is |
| ClientDuration.Payload | NetflixClone/Netflix_Frontend/src/services/api.js:263-270 | completed exactly when the flag is true, then 100 percent, else the given percentage or 0; an episode only when given and non-zero; a missing duration is "00:00:00"; profile and title passed through |
| ClientDuration.ReportOf | NetflixClone/Netflix_backend/DTOs/WatchHistoryDTOs.cs:16-21 | the report exists exactly when the clock text reads back with hours at most 23 and minutes and seconds at most 59 and the percentage is within 0-100, and then carries that many seconds and the payload's other fields |
| ClientDuration.PayloadCarriesDuration | NetflixClone/Netflix_Frontend/src/services/api.js:263-270 | a text, missing or non-negative numeric duration reaches the backend exactly when it is under a day and the sent percentage (100 when finished) is within 0-100, and then as its parsed seconds, with completion flag, profile and title kept |

## Left out

- E-mail delivery (the Gmail, Resend and console senders): a send is the boolean `sent` parameter, and HTML templates are not modelled.
- BCrypt: it is an ideal injective hash. Its 72-byte password truncation and its salts are not modelled.
- JWT: the token is an opaque value naming its user. It carries no role claim, so no administrator bypass arises.
- `RandomNumberGenerator` and `DateTime.UtcNow`: both are parameters. The two clock reads in `CreatePasswordResetAsync` are one instant.
- `BaseEntity` is not part of this model. Its `Id`, `CreatedAt`, `UpdatedAt` and `IsDeleted` fields are inferred from their use (`UpdatedAt ?? CreatedAt` makes `UpdatedAt` nullable). `CreatedAt` is the instant the row is added.
- EF Core: the change tracker, `SaveChanges` counts, concurrency and the MySQL collation are not modelled. E-mail addresses compare by plain string equality.
- The unique e-mail index is modelled only where `RegisterUserAsync` can hit it, when a soft-deleted user still holds the address. It then yields the "Duplicate entry" failure the service catches.
- The `[Required]` verification-code column: a new two-factor record is stored without a code, as `EnableTwoFactorAsync` builds it. A database that enforces the column would refuse it.
- DTO validation attributes: `Auth.IsEmailAddress` approximates `[EmailAddress]` as one '@' with text on both sides. The `[Required]` and `[StringLength]` checks are kept, and the watch report's `[Range(0, 100)]` on the percentage is checked in `ClientDuration.ReportOf`. The reset request's `ConfirmPassword` field and its `[Compare]` check are not modelled: a request is taken to carry a matching confirmation.
- Auth.Login: the validation attributes of `UserLoginDto` are not part of this model, so the outcome of model validation is the parameter `valid`; only the 400 it leads to is modelled.
- Sort ties: LINQ's ordering is stable, and the model's insertion sort is stable too. Database orderings with equal keys may come back in any order; the model fixes table order for them. The same holds for unordered `FirstOrDefault` queries: `Episodes.ByNumber` (and so `Episodes.DuplicateNumberShadowed`) takes the first match in table order, while the database may return any matching row.
- Trending: the order of the returned titles is table order, because the query does not keep the watch-count order. Ties in watch counts keep first-seen order.
- `WatchedPercentage` is a `double` that is only stored and copied. It is a `real` here, and no floating-point reasoning is done.
- `WatchedDuration` is a .NET `TimeSpan`, modelled as whole ticks. The JSON parsing of the client's "HH:MM:SS" text into it is not modelled beyond reading the three fields back.
- `ContentSummaryDto`: the default summary a response carries for a title that is not live is `None` here.
- My List: the service's `IsContentInMyListAsync` pre-check and its `GetMyListItemAsync` lookup are one query in the model, since both read the same rows.
- Navigation properties (`Include`) load rows whether or not they are soft-deleted. Continue-watching with a physically missing title row is the `NullReference` error.
- The JavaScript client: numbers are integers (durations are whole seconds), `parseInt` has no precision limit, and `completed` is an optional boolean. A truthy non-boolean `completed` is not modelled.
- Other controllers (users, profiles, My List, watch history, contents, episodes, two-factor): HTTP status mapping and the owner-or-admin checks only.
- The React pages and components, the `apiRequest` plumbing of `api.js`, `Program.cs` and `DependencyInjection.cs`: UI, network and wiring.
- CodeGeneration.ValidateCode: its contract states only the null-or-empty case; trimming and case folding are stated by the four lemmas that follow it. No login or reset flow calls it.
- CodeGeneration.ValidateCodeIgnoresCase: case is folded for ASCII letters only. `StringComparison.OrdinalIgnoreCase` also folds non-ASCII letters ("é" and "É" compare equal there, not here), because Unicode case tables are not modelled.
- ClientDuration.PayloadCarriesDuration: the backend's `TimeSpan` JSON reader is modelled only by the field ranges of its "c" format (hours 0-23, minutes and seconds 0-59), so a duration of a day or more is refused; its rules on digit counts, day and fraction parts are not modelled; a negative number handed in as the duration is not covered, since its formatted text has signed fields the model's clock reader does not read.
- WatchHistory.ContinueTitle: states that the text starts with the show's title and ends with the episode's title. The "S<season>E<number>" middle is not restated.
- WatchHistory.GetCompletedWatchHistory: states the count and that every entry is finished and the profile's, not the order.
- ClientDuration.FormatTimeSpanRoundTrip: proved for non-negative seconds only. For negative input the formatter follows JavaScript's truncating remainder, and no round trip is claimed.
