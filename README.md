# TW2 classifieds backend: a Dafny model of its services

TW2 is a Spring Boot backend for a classifieds board. Users register and log in, publish ads with a picture, comment on ads, and keep a profile with an avatar. This project models its service layer in Dafny:

- **Validation.** The input checks: lengths, letter-only names, e-mail-shaped user names, Russian phone numbers, prices.
- **UserContext.** How the calling user is resolved.
- **UserVerification.** The ownership checks behind the comment edit and delete endpoints.
- **Services.** The ad, comment, image, avatar, user and authentication services.

The database is a `Store` object. It has one map per table (users, ads, comments, avatars, images) from generated id to row, plus a map from file path to bytes that stands for the file system. Every service method that changes state is an imperative method on that store. Its frame names only the tables it writes, and its postcondition gives the complete new state in terms of the old one.

Every operation keeps the store `Valid`, except the as-written model of updateAdImage (see ## Findings):
- e-mails are unique;
- a user has at most one avatar;
- an ad has at most one image;
- every foreign key resolves;
- every id is below the id generator.

Every operation that touches files also keeps `FilesBacked` whenever it held before, again except the as-written model of updateAdImage: every avatar and image row names a file that exists.

Java and Spring mechanisms become plain values:
- Exceptions become the `Error` datatype, returned in a `Result` or an `Outcome`.
- The Spring Security context becomes an `Option<Authentication>` argument.
- The clock, the UUID generator and the password encoder become parameters.

Read-only operations and the validators are pure functions. Each has a partner predicate or lemma that states what it means:
- the language of a regular expression;
- the set of rows a listing enumerates;
- the file an endpoint serves.

Modules follow the Java services:
- `Entities`, `Decimal` (Integer.parseInt and int-to-text), `Strings`, `FileNames`.
- `Repositories`: the tables, their invariants and the `Store` class.
- `Validation`, `UserContext`, `UserVerification`.
- `ImageService`, `AvatarService`, `CommentService`, `AdService`, `AuthService`, `UserService`.

## Model

| member | source | states |
|---|---|---|
| Validation.IsValidLength | src/main/java/TW2/service/ValidationService.java:25-30 | true exactly when min <= length <= max |
| Validation.EmptyRangeRejectsAll | src/main/java/TW2/service/ValidationService.java:25-30 | with min > max no string is accepted |
| Validation.IsValidSymbolMeansLettersOnly | src/main/java/TW2/service/ValidationService.java:38-43 | the scan accepts a name exactly when it is non-empty and every character is a Latin or Cyrillic letter (а-я, А-Я, ё, Ё) |
| Validation.NonLetterRejected | src/main/java/TW2/service/ValidationService.java:38-43 | one character outside the letter class anywhere rejects the name |
| Validation.IsValidUsernameMeansEmailShape | src/main/java/TW2/service/ValidationService.java:51-56 | the scan accepts exactly the language of `^[a-zA-Z0-9._%+-]+@[a-zA-Z0-9.-]+\.[a-zA-Z]{2,}$`: a local part, one '@', a domain, a last '.', and two or more ASCII letters |
| Validation.SampleEmailAccepted | src/test/java/TW2/controller/AuthControllerTest.java:80 | the e-mail used by the tests is a valid user name |
| Validation.IsValidPhoneMeansPhoneShape | src/main/java/TW2/service/ValidationService.java:64-70 | a phone is accepted exactly when it is `+7(ddd)ddd-dd-dd` for some ten ASCII digits |
| Validation.SamplePhones | src/test/java/TW2/controller/AuthControllerTest.java:83 | the tests' phone "+7(000)000-00-00" is accepted; a number without +7 and brackets is not |
| Validation.IsValidPrice | src/main/java/TW2/service/ValidationService.java:80-85 | true exactly when the price is present and min <= price <= max; a null price is rejected |
| Decimal.ParseInt | src/main/java/TW2/service/ImageService.java:67 | a success is a Java int parsed from non-empty text; every failure is NumberFormatException carrying the text |
| Decimal.IntToStringRoundTrip | src/main/java/TW2/service/AvatarService.java:109 | parsing the decimal rendering of any Java int gives the int back, so an endpoint key names its id |
| Decimal.IntToStringInjective | src/main/java/TW2/service/AdService.java:109 | distinct ids give distinct endpoint suffixes |
| FileNames.FileExtension | src/main/java/TW2/service/AvatarService.java:144-152 | the result contains no '.', and when it is non-empty it is the text after the name's final '.' |
| FileNames.NoDotNoExtension | src/main/java/TW2/service/AvatarService.java:145-149 | a name without '.' has the empty extension |
| FileNames.TrailingDotNoExtension | src/main/java/TW2/service/AvatarService.java:145-149 | a name ending in '.' has the empty extension |
| FileNames.ExtensionRoundTrip | src/main/java/TW2/service/AvatarService.java:144-152 | the extension of base + "." + ext is ext whenever ext has no '.' |
| FileNames.StoredPath | src/main/java/TW2/service/ImageService.java:126-127 | the stored upload path keeps the uploaded file name's extension |
| UserContext.GetCurrentUser | src/main/java/TW2/service/UserContextService.java:36-44 | the principal exactly when an authenticated Authentication is present, otherwise UserNotAuthenticated |
| UserContext.GetCurrentUserFromDb | src/main/java/TW2/service/UserContextService.java:52-61 | the id of the row whose e-mail is the principal's name; UserNotFound exactly when no row has it; UserNotAuthenticated first |
| UserContext.CurrentUserIsUnique | src/main/java/TW2/service/UserContextService.java:52-61 | any row carrying the principal's e-mail is the one resolved |
| UserVerification.VerificationUserForComment | src/main/java/TW2/service/UserVerification.java:38-51 | CommentNotFound for an unknown comment, then the caller's errors, otherwise true exactly when the caller wrote the comment |
| UserVerification.VerificationUserForAds | src/main/java/TW2/service/UserVerification.java:60-73 | AdNotFound for an unknown ad, then the caller's errors, otherwise true exactly when the caller owns the ad |
| UserVerification.CommentEditAllowed | src/main/java/TW2/controller/CommentController.java:78 | the edit/delete guard allows exactly the author or an ADMIN, and the ownership check's exceptions come first |
| UserVerification.AdminMayEditAnyComment | src/main/java/TW2/controller/CommentController.java:95 | a resolved ADMIN may change any existing comment |
| ImageService.CreateImageEntity | src/main/java/TW2/service/ImageService.java:125-136 | the row belongs to the ad, has endpoint "/image/image/" and the upload's media type, and is stored under the images directory with the upload's extension |
| ImageService.SaveImage | src/main/java/TW2/service/ImageService.java:50-56 | exactly one new image row and one new file holding the upload's bytes; invariants and file backing kept |
| ImageService.GetImageFromFs | src/main/java/TW2/service/ImageService.java:66-74 | NumberFormat for a non-integer key, ImageNotFound for an unknown id, an I/O failure for a missing file, otherwise the row's file bytes and media type |
| ImageService.ImageEndpointServesStoredFile | src/main/java/TW2/service/ImageService.java:66-74 | the id of any file-backed image row, as text, serves that row's file |
| ImageService.UpdateAdImageAsWritten | src/main/java/TW2/service/ImageService.java:85-97 | as the code is written: the full new state is the old one plus a new row for the ad (CreateImageEntity of the upload) and the upload's file, minus the old file; so the old row survives pointing at a deleted file, and the ad ends with two image rows |
| ImageService.UpdateAdImage | src/main/java/TW2/service/ImageService.java:85-97 | corrected: ImageNotFound without change when the ad has no image, otherwise the same row gets the new file and media type and the old file is gone; invariants kept |
| ImageService.DeleteImageForIdAds | src/main/java/TW2/service/ImageService.java:106-115 | ImageNotFound when the ad has no image; a missing file fails before any row changes; otherwise the file and every image row of the ad are removed and nothing else changes |
| Repositories.Store.DeleteIfExists | src/main/java/TW2/service/ImageService.java:144-152 | the file is absent afterwards whether or not it existed, and nothing else changes (also deleteExistingAvatar, AvatarService.java:127-136) |
| AvatarService.DefaultAvatarCopyPath | src/main/java/TW2/service/AvatarService.java:51-56 | the copy of the default picture keeps its "png" extension |
| AvatarService.DefaultAvatarRow | src/main/java/TW2/service/AvatarService.java:59-63 | the row belongs to the user, has media type image/png, and its endpoint is "/image/avatar/" followed by the user's id |
| AvatarService.SaveDefaultAvatar | src/main/java/TW2/service/AvatarService.java:50-69 | fails with an I/O error and no change when the default picture is missing; otherwise adds exactly the copied file and the user's avatar row |
| AvatarService.UpdateUserAvatar | src/main/java/TW2/service/AvatarService.java:78-98 | caller errors, then AvatarNotFound, with no change; otherwise the caller's row gets the new file and media type, the old file is removed, and nothing else changes |
| AvatarService.GetAvatarFromFs | src/main/java/TW2/service/AvatarService.java:108-119 | NumberFormat, then AvatarNotFound for a user without an avatar, then an I/O failure for a missing file, otherwise the file and media type |
| AvatarService.AvatarEndpointServesStoredFile | src/main/java/TW2/service/AvatarService.java:108-119 | a user's id, as text, serves that user's avatar file |
| AvatarService.DefaultAvatarIsServed | src/main/java/TW2/service/AvatarService.java:50-69 | after saveDefaultAvatar, the key in the new row's endpoint serves the default picture as image/png |
| AvatarService.AvatarEndpointOf | src/main/java/TW2/service/UserService.java:65-66 | None exactly when the user has no avatar row, otherwise the endpoint of the user's row |
| CommentService.CommentDtoOf | src/main/java/TW2/service/CommentService.java:70-86 | a listed comment carries its id, author, author's first name, text, time, and the author's avatar endpoint |
| CommentService.GetCommentsForAd | src/main/java/TW2/service/CommentService.java:63-96 | every comment of the ad exactly once, in table order, as its DTO; the count equals the number of the ad's comments |
| CommentService.AddComment | src/main/java/TW2/service/CommentService.java:105-125 | AdNotFound first, then the caller's errors, with no change; otherwise exactly one new comment by the caller on the ad |
| CommentService.UpdateComment | src/main/java/TW2/service/CommentService.java:135-151 | CommentNotFound unless the comment belongs to the ad; otherwise only its text changes |
| CommentService.DeleteComment | src/main/java/TW2/service/CommentService.java:159-167 | CommentNotFound unless the comment belongs to the ad; otherwise exactly that comment is removed |
| CommentService.DeleteCommentForIdAds | src/main/java/TW2/service/CommentService.java:174-179 | exactly the ad's comments are removed, and it succeeds when there are none |
| CommentService.DeletedCommentsAreNotListed | src/main/java/TW2/service/CommentService.java:174-179 | afterwards the ad lists no comment and every other ad lists the same ones |
| CommentService.AddedCommentIsListed | src/main/java/TW2/service/CommentService.java:105-125 | a new comment joins its ad's listing (count + 1) and leaves other ads' listings alone |
| AdService.ImageEndpointOf | src/main/java/TW2/service/AdService.java:107-115 | the placeholder "default/image/path" when the ad has no image, otherwise the ad's image row's endpoint followed by its id |
| AdService.ImageFileOf | src/main/java/TW2/service/AdService.java:139-146 | the placeholder when the ad has no image, otherwise that image row's file path |
| AdService.AdDtoOf | src/main/java/TW2/service/AdService.java:204-213 | a listed ad carries its owner, id, price, title and image endpoint |
| AdService.GetAdDtoList | src/main/java/TW2/service/AdService.java:195-218 | one DTO per given ad, in the given order |
| AdService.GetAllAds | src/main/java/TW2/service/AdService.java:62-70 | every ad exactly once, in findAll's order, and the count is the number of ads |
| AdService.GetMeAllAds | src/main/java/TW2/service/AdService.java:172-187 | the caller's errors, or exactly the caller's ads once each, in table order, with their count |
| AdService.GetAdById | src/main/java/TW2/service/AdService.java:101-118 | AdNotFound exactly for an unknown id; otherwise the ad's fields, its owner's name, e-mail and phone, and its image endpoint |
| AdService.ReportedImageIsServed | src/main/java/TW2/service/AdService.java:107-110 | the image path getAdById reports, minus the "/image/image/" prefix, serves the ad's image file |
| AdService.AddAd | src/main/java/TW2/service/AdService.java:80-93 | the caller's errors with no change; otherwise one new ad owned by the caller and its one image row and file, and the result reports the image's file path |
| AdService.UpdateAd | src/main/java/TW2/service/AdService.java:127-149 | AdNotFound with no change; otherwise only title, price and description change |
| AdService.RemoveAd | src/main/java/TW2/service/AdService.java:157-165 | succeeds exactly when the ad has an image whose file exists, and then removes the ad, its comments, its image rows and its file; ImageNotFound (a runtime exception) rolls everything back; a missing file (a checked IOException, on which Spring commits) leaves the comments deleted and everything else as it was |
| AdService.RemovedAdLeavesNoTrace | src/main/java/TW2/service/AdService.java:157-165 | after removal the store is consistent, getAdById raises AdNotFound, nothing lists the ad, and other ads, comments and images are as before |
| AuthService.Login | src/main/java/TW2/service/impl/AuthServiceImpl.java:55-66 | true exactly when some user has the name as e-mail and the password matches that user's stored hash |
| AuthService.NewUser | src/main/java/TW2/service/impl/AuthServiceImpl.java:82-83 | the new row has the user name as e-mail, the encoded password, and the given names, phone and role |
| AuthService.Register | src/main/java/TW2/service/impl/AuthServiceImpl.java:75-91 | Ok(false) with no change exactly when the e-mail is taken; otherwise the user is saved with the encoded password, and gets the default avatar exactly when the default picture exists (the user row is kept when it does not) |
| AuthService.RegisteredUserCanLogIn | src/main/java/TW2/service/impl/AuthServiceImpl.java:55-91 | after registration the user can log in with the registered password, and other names' log-ins are unchanged |
| UserService.UpdatePassword | src/main/java/TW2/service/UserService.java:49-55 | the caller's errors with no change; otherwise only the caller's password becomes the new hash |
| UserService.GetUser | src/main/java/TW2/service/UserService.java:62-71 | the caller's errors, or the caller's profile with the avatar endpoint present exactly when the caller has an avatar |
| UserService.UpdateUser | src/main/java/TW2/service/UserService.java:79-91 | the caller's errors with no change; otherwise only first name, last name and phone change and the result echoes them |
| UserService.ProfileEditKeepsIdentity | src/main/java/TW2/service/UserService.java:79-91 | an edit that keeps the e-mail keeps the caller resolving to the same row |

## Left out

- Controllers: HTTP mapping, status codes and JSON are left out. The only part kept is the comment guard expression, in UserVerification.CommentEditAllowed. The ad and user controllers' own argument handling is not modelled.
- Mappers: `toExtendedAdDto`, `toCommentDto`, `toUserDto`, `toUsers` and `toUpdateUserDto` are not part of this model. The model assumes each copies the fields of the same name.
- Logging is left out.
- The file system is a map from path to bytes. Directories, permissions, concurrent access and write failures are not modelled; only a missing file fails a read or a delete.
- Paths are joined with "/", with no normalisation.
- The clock, the UUID generator, the password encoder and `matches` are parameters.
  - The generated file name is passed in, and callers require that its path is not in use.
- The configured directories are constants: "images" and "avatars".
- Tables have no inherent order. Where a query without ORDER BY returns rows, the order is an input that enumerates the table.
  - AdService.GetMeAllAds and CommentService.GetCommentsForAd assume that the derived queries findByUsersId and findByAdsPk return their rows in the same relative order as that enumeration of the whole table. Nothing in JPA guarantees this.
- Transactions: `@Transactional` rollback restores the tables and the file map together. In the real system a deleted file is not restored.
  - Spring rolls back only on a runtime exception. AdService.RemoveAd follows that rule: on the checked IOException of a missing image file, the comment deletion stays committed.
- The JPA entities' cascade rules and column constraints are not part of this model. The repository calls are modelled on maps.
  - `deleteById` of an id that does not exist cannot happen in the paths modelled.
  - `loadUserByUsername` is assumed to look the user up by e-mail.
- `Collectors.toMap` throws on duplicate keys. Duplicates are excluded by the one-avatar-per-user and one-image-per-ad invariants that every corrected operation keeps.
- Null inputs are left out. Validation.IsValidPrice takes an `Option<int>`, so it models a null price. The price of `CreateOrUpdateAd` is a plain `int`, so a null price in an ad form cannot be expressed. File names, content types and texts are never null.
  - Spring's `getFilenameExtension` returns null for a name without a dot, which gives a file name ending in ".null". The model uses `getFileExtension` instead, which gives "". FileNames.StoredPath therefore does not model the ".null" suffix.
- Strings are sequences of Unicode code points. Java strings are UTF-16 code units, and lone surrogates cannot be represented here.
- Validation.IsValidLength counts a character outside the Basic Multilingual Plane as 1. Java's `length()` counts it as 2, so for such names the model can reject a length that Java accepts, or the reverse.
  - Decimal.ParseInt accepts ASCII digits only. Java also accepts other Unicode decimal digits.
- RemoveAd fails with ImageNotFound for an ad without an image row, as the code does. addAd always creates one, so this only affects ads created in other ways.

## Findings

| source | as written | input that shows it | evidently intended | confidence | as-written member | corrected member |
|---|---|---|---|---|---|---|
| src/main/java/TW2/service/ImageService.java:85-97 | updateAdImage deletes the old file, then saves a new Images row for the ad without removing or reusing the old row | an ad with one image row whose file exists; any upload | the ad's existing row gets the new file path and media type, as updateUserAvatar does for avatars. As written, the ad ends with two image rows and one of them names a deleted file, so later findByAdsPk calls for the ad can no longer return a single row | medium, not executed | ImageService.UpdateAdImageAsWritten | ImageService.UpdateAdImage |
