# Apartment sales management: the store rules

This project models the rules of the apartment sales application that decide
what gets written to its database. It covers:

- how user accounts are admitted (`UserService.saveUser`), updated, activated
  and deleted;
- the automatic parking assignment a new CLIENT receives;
- the start-up seeding of the database by `DataInitializer`;
- apartment status changes and image bookkeeping (`ApartmentService`);
- the `Apartment` entity: its constraints, status predicates, address and
  price formatting, and setters;
- the checks the admin, registration and client controllers run before they
  write anything.

The persistence layer is one in-memory object, `Repository.Store`. It holds:

- the users, keyed by id;
- the apartment rows, keyed by id;
- the parking spaces, in store order;
- the counters that play the part of IDENTITY columns.

The store enforces the unique username and email constraints. It also keeps
space numbers unique. Each operation that changes state is a method on the
store, with the store in its `modifies` clause. The contract of each such
method states the new state in terms of the old one. `Initializer.Run`
states which accounts exist after it, when it fails, and the rows it seeds
into empty tables when "admin" is already present; after it creates the
admin, the rows it seeds are stated by `InitializeData`, which it calls.
Pure queries and counts are functions, and lemmas state what they
promise.

Some inputs come from the environment, so they are parameters:

- The password encoder is `encode: string -> string` and the password check is
  `matches`. The deployed BCrypt encoder always produces a string starting with
  "$2a$"; the lemmas that depend on this state it as `PrefixedEncoder`.
- The form's bean-validation result is `hasErrors`, and the signed-in user is
  `userId`.
- Whether the database answers the readiness probe is `dbReady`.
- Which admin-creation attempts meet a transient database error is `outage`.
- The URL the image store picks, and whether storing fails, is `storedUrl`.

ParkingService is not part of this model, and its operations are assumptions:

- getParkingSpacesByTenant lists the spaces whose tenant is the user.
- getUnassignedAvailableSpaces lists, in store order, the spaces that are
  AVAILABLE and have no tenant.
- assignParkingSpaceToTenant sets the tenant and the status OCCUPIED.
- createParkingSpace appends a space, and refuses a space number already in use.

Some descriptions of the system mention a status transition table for
apartments and a lexicographic order of parking candidates. The code has
neither: `updateApartmentStatus` accepts any status, and the automatic
assignment takes element 0 of the candidate list. The model follows the code.

## Model

| member | source | states |
|---|---|---|
| Accounts.ManagementRoleOf | src/main/java/com/example/apartmentsalesmanagementsystem/controller/AdminController.java:141-146 | ManagementRole.valueOf yields a role exactly when the name is one of the enum's constants, and that role carries the name |
| Parkings.AssignToTenant | src/main/java/com/example/apartmentsalesmanagementsystem/service/UserService.java:199 | assigning space k binds it to the user as OCCUPIED, keeps its number, and leaves every other space as it was |
| Parkings.FirstCandidateIsLowest | src/main/java/com/example/apartmentsalesmanagementsystem/service/UserService.java:189-198 | the candidate the code takes (element 0) is free, and no space before it in store order is free |
| Parkings.AutoAssignBindsFirstCandidate | src/main/java/com/example/apartmentsalesmanagementsystem/service/UserService.java:197-203 | for a client without a space, the first candidate and only it becomes the client's, the client then holds exactly that space, and the free list loses exactly one entry |
| Parkings.AutoAssignIdempotent | src/main/java/com/example/apartmentsalesmanagementsystem/service/UserService.java:181-186 | running the assignment again for the same user changes nothing |
| Parkings.AutoAssignKeepsTenants | src/main/java/com/example/apartmentsalesmanagementsystem/service/UserService.java:174-210 | the assignment keeps the number of spaces, and never takes over a space that already had a tenant |
| Parkings.AdmitAllAssignsUpToCapacity | src/main/java/com/example/apartmentsalesmanagementsystem/service/UserService.java:189-203 | admitting distinct new clients one after another grants a space to min(clients, free spaces) of them |
| Parkings.SpacesOf | src/main/java/com/example/apartmentsalesmanagementsystem/service/UserService.java:181-186 | getParkingSpacesByTenant gives every space whose tenant is the user and no other, in store order |
| Parkings.UnassignedAvailable | src/main/java/com/example/apartmentsalesmanagementsystem/service/UserService.java:188-190 | getUnassignedAvailableSpaces gives every space with no tenant and status AVAILABLE and no other, in store order |
| Parkings.AutoAssign | src/main/java/com/example/apartmentsalesmanagementsystem/service/UserService.java:174-210 | the table keeps its length; the result is true exactly for a CLIENT that already holds a space or finds a free one; the table changes only for a client that held none, and only at a free space, which becomes the client's |
| UserService.StoredPassword | src/main/java/com/example/apartmentsalesmanagementsystem/service/UserService.java:74-76 | a null password stays null and a non-null one stays non-null; a password that already starts with "$2a$" is stored as it is |
| UserService.CountUsersByRole | src/main/java/com/example/apartmentsalesmanagementsystem/service/UserService.java:142-144 | countUsersByRole is at most the number of users, and zero exactly when no user has the role |
| UserService.ActiveUserIds | src/main/java/com/example/apartmentsalesmanagementsystem/service/UserService.java:100-102 | findActiveUsers gives exactly the users whose active flag is set |
| UserService.ActiveUsersCount | src/main/java/com/example/apartmentsalesmanagementsystem/service/UserService.java:150-152 | getActiveUsersCount is at most the number of users |
| ApartmentService.CountApartmentsByStatus | src/main/java/com/example/apartmentsalesmanagementsystem/service/ApartmentService.java:88-90 | countApartmentsByStatus is at most the number of apartments, and zero exactly when none has the status |
| AdminController.TotalAgents | src/main/java/com/example/apartmentsalesmanagementsystem/controller/AdminController.java:61-63 | totalAgents is zero exactly when no user holds the AGENT management role |
| DataInitializer.SampleApartmentsValid | src/main/java/com/example/apartmentsalesmanagementsystem/entity/Apartment.java:20-62 | every sample apartment passes the entity's validation constraints (ValidApartment): no text field is blank, the price is above zero, and bedrooms, bathrooms and square feet are positive |
| Apartments.ExactlyOneStatus | src/main/java/com/example/apartmentsalesmanagementsystem/entity/Apartment.java:247-257 | exactly one of isAvailable, isSold and isUnderContract (IsAvailable, IsSold, IsUnderContract) holds |
| Apartments.FullAddress | src/main/java/com/example/apartmentsalesmanagementsystem/entity/Apartment.java:239-241 | the text is the address, ", ", the city, ", ", the state, a space and the zip code, in that order and with nothing else |
| Apartments.FormattedPrice | src/main/java/com/example/apartmentsalesmanagementsystem/entity/Apartment.java:243-245 | the formatted price begins with "$" and has something after it |
| Apartments.FormattedPriceRoundTrip | src/main/java/com/example/apartmentsalesmanagementsystem/entity/Apartment.java:243-245 | in plain notation the formatted price reads back as the same price: the same unscaled value and the same scale |
| Apartments.Apartment.Blank | src/main/java/com/example/apartmentsalesmanagementsystem/entity/Apartment.java:64-93 | a new Apartment has status AVAILABLE, no id, no owner and no image |
| Apartments.Apartment.constructor | src/main/java/com/example/apartmentsalesmanagementsystem/entity/Apartment.java:95-107 | the ten-argument constructor stores the given fields, with status AVAILABLE, no owner and no image |
| Apartments.Apartment.SetId | src/main/java/com/example/apartmentsalesmanagementsystem/entity/Apartment.java:114-116 | sets the id and leaves every other field unchanged |
| Apartments.Apartment.SetTitle | src/main/java/com/example/apartmentsalesmanagementsystem/entity/Apartment.java:122-124 | sets the title and leaves every other field unchanged |
| Apartments.Apartment.SetDescription | src/main/java/com/example/apartmentsalesmanagementsystem/entity/Apartment.java:130-132 | sets the description and leaves every other field unchanged |
| Apartments.Apartment.SetAddress | src/main/java/com/example/apartmentsalesmanagementsystem/entity/Apartment.java:138-140 | sets the address and leaves every other field unchanged |
| Apartments.Apartment.SetCity | src/main/java/com/example/apartmentsalesmanagementsystem/entity/Apartment.java:146-148 | sets the city and leaves every other field unchanged |
| Apartments.Apartment.SetState | src/main/java/com/example/apartmentsalesmanagementsystem/entity/Apartment.java:154-156 | sets the state and leaves every other field unchanged |
| Apartments.Apartment.SetZipCode | src/main/java/com/example/apartmentsalesmanagementsystem/entity/Apartment.java:162-164 | sets the zip code and leaves every other field unchanged |
| Apartments.Apartment.SetPrice | src/main/java/com/example/apartmentsalesmanagementsystem/entity/Apartment.java:170-172 | sets the price and leaves every other field unchanged |
| Apartments.Apartment.SetBedrooms | src/main/java/com/example/apartmentsalesmanagementsystem/entity/Apartment.java:178-180 | sets the bedroom count and leaves every other field unchanged |
| Apartments.Apartment.SetBathrooms | src/main/java/com/example/apartmentsalesmanagementsystem/entity/Apartment.java:186-188 | sets the bathroom count and leaves every other field unchanged |
| Apartments.Apartment.SetSquareFeet | src/main/java/com/example/apartmentsalesmanagementsystem/entity/Apartment.java:194-196 | sets the square footage and leaves every other field unchanged |
| Apartments.Apartment.SetStatus | src/main/java/com/example/apartmentsalesmanagementsystem/entity/Apartment.java:202-204 | sets any status from any status, leaving owner, price and the other fields unchanged |
| Apartments.Apartment.SetImageUrl | src/main/java/com/example/apartmentsalesmanagementsystem/entity/Apartment.java:210-212 | sets the image URL and leaves every other field unchanged |
| Apartments.Apartment.SetOwner | src/main/java/com/example/apartmentsalesmanagementsystem/entity/Apartment.java:218-220 | sets the owner and leaves every other field unchanged |
| Repository.Store.constructor | src/main/java/com/example/apartmentsalesmanagementsystem/repository/UserRepository.java:1-39 | a new store is empty and satisfies the unique constraints |
| Repository.Store.FindByUsername | src/main/java/com/example/apartmentsalesmanagementsystem/service/UserService.java:84-86 | findByUsername finds a user exactly when the name is taken, and that user is the only one with the name |
| Repository.Store.SaveUserRow | src/main/java/com/example/apartmentsalesmanagementsystem/service/UserService.java:77 | save overwrites a known id unless another account has the username or email, and inserts under a fresh id otherwise; a constraint violation changes nothing |
| Repository.Store.DeleteUserRow | src/main/java/com/example/apartmentsalesmanagementsystem/service/UserService.java:120-122 | deleteById removes exactly that id from the users and touches nothing else |
| Repository.Store.SaveApartmentRow | src/main/java/com/example/apartmentsalesmanagementsystem/service/ApartmentService.java:27-33 | save overwrites a known id and inserts under a fresh id otherwise; only that row changes |
| Repository.Store.DeleteApartmentRow | src/main/java/com/example/apartmentsalesmanagementsystem/service/ApartmentService.java:75-77 | deleteById removes exactly that apartment |
| Repository.Store.CreateParkingSpace | src/main/java/com/example/apartmentsalesmanagementsystem/config/DataInitializer.java:353 | a new space number is appended at the end; a number already in use is refused and stores nothing |
| Repository.Store.AssignParkingSpaceToTenant | src/main/java/com/example/apartmentsalesmanagementsystem/service/UserService.java:199 | the spaces become AssignToTenant of the old spaces; users and apartments are unchanged |
| UserService.StoredPasswordKeepsEncoded | src/main/java/com/example/apartmentsalesmanagementsystem/service/UserService.java:74-77 | updateUser keeps the password exactly when it is null or already starts with "$2a$"; with a prefixed encoder, every non-null password it stores starts with "$2a$" |
| UserService.StoredPasswordIdempotent | src/main/java/com/example/apartmentsalesmanagementsystem/service/UserService.java:72-76 | updating twice encodes the password at most once |
| UserService.PrefixedPlaintextStoredUnencoded | src/main/java/com/example/apartmentsalesmanagementsystem/service/UserService.java:74 | a plaintext password that begins with "$2a$" is stored unencoded |
| UserService.RoleCountsPartition | src/main/java/com/example/apartmentsalesmanagementsystem/service/UserService.java:142-152 | the ADMIN and CLIENT counts add up to getTotalUsers (TotalUsers), and the active count is at most it |
| UserService.WithActive | src/main/java/com/example/apartmentsalesmanagementsystem/service/UserService.java:124-140 | setting the active flag keeps the set of user ids |
| UserService.WithActiveMovesOneId | src/main/java/com/example/apartmentsalesmanagementsystem/service/UserService.java:124-140 | deactivation removes exactly that id from the active users and activation adds exactly it; an unknown id changes nothing; the total and the role counts stay |
| UserService.DeactivateActivateRestores | src/main/java/com/example/apartmentsalesmanagementsystem/service/UserService.java:124-140 | deactivating and then activating an active user restores the accounts |
| UserService.SetActive | src/main/java/com/example/apartmentsalesmanagementsystem/service/UserService.java:124-140 | the users become WithActive of the old users; apartments and parking are unchanged |
| UserService.DeactivateUser | src/main/java/com/example/apartmentsalesmanagementsystem/service/UserService.java:124-131 | the users become WithActive(old, id, false) |
| UserService.ActivateUser | src/main/java/com/example/apartmentsalesmanagementsystem/service/UserService.java:133-140 | the users become WithActive(old, id, true) |
| UserService.DeleteUser | src/main/java/com/example/apartmentsalesmanagementsystem/service/UserService.java:120-122 | the account is removed; apartments and parking spaces are left as they were |
| UserService.AssignParkingSlotToNewCustomer | src/main/java/com/example/apartmentsalesmanagementsystem/service/UserService.java:173-210 | the spaces and the returned flag are what AutoAssign gives: false and no change for a non-CLIENT or with no free space, true and no change for a user who already holds a space, and otherwise the first candidate is bound |
| UserService.SaveUser | src/main/java/com/example/apartmentsalesmanagementsystem/service/UserService.java:47-69 | a taken username (Store.ExistsByUsername), then a taken email (Store.ExistsByEmail), then a null password is refused with the store unchanged; otherwise exactly one new user is stored under a fresh id with the encoded password, and a CLIENT gets the automatic parking assignment |
| UserService.UpdateUser | src/main/java/com/example/apartmentsalesmanagementsystem/service/UserService.java:71-78 | the user is saved with the password StoredPassword gives; a unique-constraint violation changes nothing |
| ApartmentService.ImageStorage.constructor | src/main/java/com/example/apartmentsalesmanagementsystem/service/ApartmentService.java:25 | the image service starts with no recorded calls |
| ApartmentService.ImageStorage.StoreImage | src/main/java/com/example/apartmentsalesmanagementsystem/service/ApartmentService.java:122 | a store call is recorded and its URL returned |
| ApartmentService.ImageStorage.DeleteImage | src/main/java/com/example/apartmentsalesmanagementsystem/service/ApartmentService.java:137 | a delete call is recorded |
| ApartmentService.ImageCleanup | src/main/java/com/example/apartmentsalesmanagementsystem/service/ApartmentService.java:156-159 | an image is deleted exactly when its URL is non-null and starts with "/uploads/" (IsUploaded), and then the one call deletes that URL |
| ApartmentService.FindAvailableApartments | src/main/java/com/example/apartmentsalesmanagementsystem/service/ApartmentService.java:43-45 | the result holds exactly the stored apartments whose status is AVAILABLE |
| ApartmentService.StatusCountsPartition | src/main/java/com/example/apartmentsalesmanagementsystem/service/ApartmentService.java:88-110 | the available count (AvailableApartmentsCount) is the size of findAvailableApartments, and the three status counts (AvailableApartmentsCount, SoldApartmentsCount, UnderContractApartmentsCount) add up to getTotalApartments (TotalApartments) |
| ApartmentService.WithStatus | src/main/java/com/example/apartmentsalesmanagementsystem/service/ApartmentService.java:79-86 | a known id gets the new status with its other fields kept; every other apartment and the set of ids are unchanged; an unknown id changes nothing |
| ApartmentService.WithStatusMovesOne | src/main/java/com/example/apartmentsalesmanagementsystem/service/ApartmentService.java:79-86 | a status change moves exactly that apartment from its old status's list to the new one's |
| ApartmentService.WithStatusCounts | src/main/java/com/example/apartmentsalesmanagementsystem/service/ApartmentService.java:79-110 | after a status change, the new status counts one more, the old one one less, the others the same, and the total is unchanged |
| ApartmentService.UpdateApartmentStatus | src/main/java/com/example/apartmentsalesmanagementsystem/service/ApartmentService.java:79-86 | the apartments become WithStatus of the old ones, with no transition check |
| ApartmentService.DeleteApartment | src/main/java/com/example/apartmentsalesmanagementsystem/service/ApartmentService.java:75-77 | the apartment is removed |
| ApartmentService.SaveApartmentWithImage | src/main/java/com/example/apartmentsalesmanagementsystem/service/ApartmentService.java:119-127 | with a non-empty file the image is stored and its URL set before saving; without one the image URL is unchanged; a failed upload saves nothing |
| ApartmentService.UpdateApartmentWithImage | src/main/java/com/example/apartmentsalesmanagementsystem/service/ApartmentService.java:132-146 | with a non-empty file the old image is deleted only when it was uploaded, then the new one is stored and set; without one nothing but the save happens |
| ApartmentService.DeleteApartmentWithImage | src/main/java/com/example/apartmentsalesmanagementsystem/service/ApartmentService.java:151-163 | a known apartment is removed and its image deleted only when it was uploaded; an unknown id changes nothing |
| ApartmentService.ImageOperationsDeleteOnlyUploads | src/main/java/com/example/apartmentsalesmanagementsystem/service/ApartmentService.java:119-163 | the image operations keep the invariant that only "/uploads/" images are ever deleted |
| DataInitializer.JohnApartments | src/main/java/com/example/apartmentsalesmanagementsystem/config/DataInitializer.java:232-280 | john.doe's sample apartments are three |
| DataInitializer.JaneApartments | src/main/java/com/example/apartmentsalesmanagementsystem/config/DataInitializer.java:282-314 | jane.smith's sample apartments are two |
| DataInitializer.SampleApartments | src/main/java/com/example/apartmentsalesmanagementsystem/config/DataInitializer.java:226-315 | three apartments when john.doe exists plus two when jane.smith exists |
| DataInitializer.SampleParkingSpaces | src/main/java/com/example/apartmentsalesmanagementsystem/config/DataInitializer.java:335-464 | the sample parking spaces are eight |
| DataInitializer.SeededStatusWithoutTenant | src/main/java/com/example/apartmentsalesmanagementsystem/config/DataInitializer.java:355-443 | P-002 and P-003 are OCCUPIED with a tenant only when their user was found, and P-007 is RESERVED with no tenant; so OCCUPIED does not imply a tenant |
| DataInitializer.SampleApartmentsWellFormed | src/main/java/com/example/apartmentsalesmanagementsystem/config/DataInitializer.java:226-315 | every sample apartment has a positive price and positive counts, no image, and the owner it was created for; only jane.smith's last one is not AVAILABLE |
| DataInitializer.SeededFreeSpaces | src/main/java/com/example/apartmentsalesmanagementsystem/config/DataInitializer.java:341-457 | the free spaces after seeding are P-001, P-004, P-005 and P-006, in that order |
| DataInitializer.SeededParkingCapacity | src/main/java/com/example/apartmentsalesmanagementsystem/config/DataInitializer.java:335-464 | after seeding, the first new client is given P-001, and at most four new clients get a space |
| DataInitializer.SaveNewRows | src/main/java/com/example/apartmentsalesmanagementsystem/config/DataInitializer.java:232-312 | the rows are saved in order under new, distinct ids, keeping every earlier row |
| DataInitializer.CreateSampleApartments | src/main/java/com/example/apartmentsalesmanagementsystem/config/DataInitializer.java:226-315 | the sample apartments for the users found are added under new ids; users and parking are unchanged |
| DataInitializer.CreateSpaces | src/main/java/com/example/apartmentsalesmanagementsystem/config/DataInitializer.java:335-464 | the spaces are created in order until the first refused one; the spaces created so far stay |
| DataInitializer.CreateSampleParkingSpaces | src/main/java/com/example/apartmentsalesmanagementsystem/config/DataInitializer.java:335-464 | a prefix of the eight sample spaces is appended, stopping only at a space number in use; into an empty table all eight are created |
| DataInitializer.SampleSpaceNumbersUnique | src/main/java/com/example/apartmentsalesmanagementsystem/config/DataInitializer.java:343-447 | the eight sample space numbers differ |
| DataInitializer.CheckAndCreateSampleParkingSpaces | src/main/java/com/example/apartmentsalesmanagementsystem/config/DataInitializer.java:317-333 | parking is seeded only when the table is empty, and then holds exactly the sample spaces |
| DataInitializer.CheckAndCreateSampleApartments | src/main/java/com/example/apartmentsalesmanagementsystem/config/DataInitializer.java:205-224 | apartments are seeded only when there are none, and then the table holds exactly the sample apartments under new ids; parking is seeded only when there is none; users are unchanged |
| DataInitializer.CheckAdminExists | src/main/java/com/example/apartmentsalesmanagementsystem/config/DataInitializer.java:133-145 | the repeated existence check answers whether "admin" exists |
| DataInitializer.FirstClearAttempt | src/main/java/com/example/apartmentsalesmanagementsystem/config/DataInitializer.java:94-126 | the first of the three attempts without a transient error, or 3 when all three meet one |
| DataInitializer.CreateAdminUserWithRetry | src/main/java/com/example/apartmentsalesmanagementsystem/config/DataInitializer.java:93-128 | makes at most three attempts; an existing "admin" means success at attempt 1 with nothing written; otherwise at most one admin is created, with the encoded password under a fresh id, at the first attempt without an outage, unless the admin email is taken; a false result writes nothing |
| DataInitializer.CreateSampleClients | src/main/java/com/example/apartmentsalesmanagementsystem/config/DataInitializer.java:165-196 | john.doe and then jane.smith are saved, with encoded passwords under fresh ids, exactly when their username and email are free; a failure, exactly when a free username meets an email in use, is EmailExists and stops before jane.smith; each saved client gets the automatic parking assignment; existing accounts and tenanted spaces are kept |
| DataInitializer.SeedCatalogue | src/main/java/com/example/apartmentsalesmanagementsystem/config/DataInitializer.java:198-202 | the sample apartments for the users found are added under new ids with every earlier row kept, and a prefix of the sample spaces is appended, stopping only at a space number in use; all eight into an empty table |
| DataInitializer.TakenAfterAdding | src/main/java/com/example/apartmentsalesmanagementsystem/config/DataInitializer.java:165-196 | adding an account under a new id takes exactly its username and email |
| DataInitializer.SaveOutcomeAfterAdding | src/main/java/com/example/apartmentsalesmanagementsystem/config/DataInitializer.java:165-196 | adding an account with a different username and email does not change whether a sample client's save succeeds or fails |
| DataInitializer.SaveClientIfAbsent | src/main/java/com/example/apartmentsalesmanagementsystem/config/DataInitializer.java:166-179 | a sample client is saved, with its encoded password under a fresh id and the automatic parking assignment, exactly when its username and email are free; a free username with an email in use fails with EmailExists; a taken username skips it; nothing else changes |
| DataInitializer.CatalogueAddedFacts | src/main/java/com/example/apartmentsalesmanagementsystem/config/DataInitializer.java:198-202 | with both sample clients present the catalogue seeding adds five apartments; into an empty parking table it puts exactly the eight sample spaces; earlier spaces stay first |
| DataInitializer.SeedClientsAndCatalogue | src/main/java/com/example/apartmentsalesmanagementsystem/config/DataInitializer.java:165-202 | a failed client save ends before the catalogue, with the clients saved so far; otherwise the clients exist and the catalogue is seeded after their parking assignment, keeping earlier tenanted spaces |
| DataInitializer.InitializeData | src/main/java/com/example/apartmentsalesmanagementsystem/config/DataInitializer.java:130-203 | returns early with nothing written exactly when "admin" exists or cannot be created; otherwise stores the admin and the missing clients with encoded passwords, fails exactly when a client's email is in use, and on success adds the five sample apartments under new ids and appends the sample spaces after the assigned ones, keeping earlier rows and tenanted spaces |
| DataInitializer.Initializer.constructor | src/main/java/com/example/apartmentsalesmanagementsystem/config/DataInitializer.java:24 | the flag starts false |
| DataInitializer.Initializer.Run | src/main/java/com/example/apartmentsalesmanagementsystem/config/DataInitializer.java:39-91 | a run that is already initialized, or finds the database not ready, writes nothing; the flag is set exactly when the seeding branch completes; with "admin" absent, "admin" exists afterwards exactly when it could be saved within three attempts, and the run fails exactly when it was saved and john.doe's or jane.smith's email belongs to another account; a run that saves no admin writes nothing; with "admin" present, users are unchanged, a non-empty table is untouched, and an empty one receives exactly the sample rows |
| AdminController.CreateUserCheck | src/main/java/com/example/apartmentsalesmanagementsystem/controller/AdminController.java:119-136 | the outcome is decided in order: password confirmation, then username, then email, each in both directions; a null password makes the handler fail |
| AdminController.WithRequestedRole | src/main/java/com/example/apartmentsalesmanagementsystem/controller/AdminController.java:138-146 | only the management roles change; a role is added only for an ADMIN with a non-blank, valid name, and then it is added; an invalid name is ignored |
| AdminController.CreateUser | src/main/java/com/example/apartmentsalesmanagementsystem/controller/AdminController.java:115-168 | any failed check stores nothing; otherwise exactly one new user with the requested role and the encoded password is stored, with the automatic parking assignment for a CLIENT |
| AdminController.CreateAgent | src/main/java/com/example/apartmentsalesmanagementsystem/controller/AdminController.java:363-377 | saving succeeds exactly when the username and email are free and a password is given; the agent is then stored as a CLIENT whose management roles are exactly {AGENT}, gets the automatic parking assignment, and the agent count grows by one; a failure changes nothing |
| AdminController.UpdateAgent | src/main/java/com/example/apartmentsalesmanagementsystem/controller/AdminController.java:394-412 | an unknown id is reported and changes nothing; a username or email of another account is reported as a failed update, exactly then, and changes nothing; otherwise the account's roles become the stored roles with AGENT added, and the agent count grows by one only if it was not an agent |
| AdminController.DeleteAgent | src/main/java/com/example/apartmentsalesmanagementsystem/controller/AdminController.java:414-436 | an unknown id is reported; otherwise only AGENT is removed from the roles, the user is kept, and the agent count drops by one if it was an agent |
| AdminController.DeleteUser | src/main/java/com/example/apartmentsalesmanagementsystem/controller/AdminController.java:203-228 | a missing id is reported and deletes nothing; otherwise exactly that user is removed, and the agent count drops if it was an agent |
| AdminController.AgentIds | src/main/java/com/example/apartmentsalesmanagementsystem/controller/AdminController.java:61-63 | exactly the users whose management roles contain AGENT |
| AdminController.TotalAgentsAfterStore | src/main/java/com/example/apartmentsalesmanagementsystem/controller/AdminController.java:61-63 | storing one account changes totalAgents only by what that account was and becomes |
| AdminController.TotalAgentsAfterDelete | src/main/java/com/example/apartmentsalesmanagementsystem/controller/AdminController.java:61-63 | deleting an agent lowers totalAgents by one, and deleting anyone else leaves it |
| AdminController.TotalAgentsBounded | src/main/java/com/example/apartmentsalesmanagementsystem/controller/AdminController.java:51-63 | totalAgents is at most totalUsers |
| UserController.AsNewClient | src/main/java/com/example/apartmentsalesmanagementsystem/controller/UserController.java:44-45 | the registered account is an active CLIENT and otherwise the submitted one |
| UserController.RegisterUser | src/main/java/com/example/apartmentsalesmanagementsystem/controller/UserController.java:22-68 | form errors, then a taken username, then a taken email return the form with nothing saved; otherwise one active CLIENT is saved with the automatic parking assignment; a failed save is never reported as a registration |
| ClientController.PasswordChangeCheck | src/main/java/com/example/apartmentsalesmanagementsystem/controller/ClientController.java:214-248 | each rejection, in order, holds exactly when its condition does: confirmation differs, shorter than 6, unknown user, wrong current password, new equals the stored one; it passes exactly when all pass |
| ClientController.Lookup | src/main/java/com/example/apartmentsalesmanagementsystem/controller/ClientController.java:230-236 | findById finds the stored account exactly when the id is known |
| ClientController.ChangePassword | src/main/java/com/example/apartmentsalesmanagementsystem/controller/ClientController.java:207-263 | a failed check writes nothing and reports that check; otherwise only the password changes, to what updateUser stores for the new one |
| ClientController.ChangedPasswordStored | src/main/java/com/example/apartmentsalesmanagementsystem/controller/ClientController.java:251-252 | with a prefixed encoder the new password is stored encoded, unless it already starts with "$2a$" |
| ClientController.WithProfile | src/main/java/com/example/apartmentsalesmanagementsystem/controller/ClientController.java:186-189 | only the first name, last name, email and phone number change |
| ClientController.UpdateProfile | src/main/java/com/example/apartmentsalesmanagementsystem/controller/ClientController.java:161-205 | an unknown user, or an email another account uses, writes nothing; otherwise only the four profile fields change, apart from updateUser encoding a password that does not look encoded |

## Left out

- Concurrency and timing: the `volatile` flag, the `Thread.sleep` pauses, transactions and concurrent registrations. The retry loops are bounded loops without time.
- Password hashing is not modelled: `encode` and `matches` are parameters.
- ParkingService is not part of this model. Its four operations are assumptions, stated above.
- The parking spaces' maximum vehicle dimensions (`Double`) are not modelled. The monthly fee is kept as a whole number of cents.
- The createdAt/updatedAt timestamps and their @PrePersist/@PreUpdate hooks read the clock, and are left out.
- Flash messages, view names, logging and the choice of error text by matching substrings of exception messages are left out. Each handler returns which case it took.
- String lengths count characters rather than UTF-16 code units, and the `trim()` test covers characters up to a space.
- Apartments.FormattedPriceRoundTrip: proved only for prices that BigDecimal prints in plain notation. Exponent notation is modelled in DecimalString but not read back.
- Negative BigDecimal scales are not represented: `Decimal` has a scale of zero or more. A price parsed from input in exponent notation such as "1E+3" has a negative scale, and such input is not modelled.
- Apartments.Apartment.Blank: the fields the source leaves null are empty text and zero here.
- DataInitializer.CheckAdminExists: an exception thrown by the existence check is not modelled, and neither is an InterruptedException in the retry loop.
- DataInitializer.CreateSampleApartments and DataInitializer.CreateSampleParkingSpaces are loops over the sample list rather than the source's unrolled sequences of saves.
- DataInitializer.Initializer.Run: the static flag is a field of the initializer object. After it creates the admin, its contract states which accounts exist and how many apartments were added; the rows themselves are stated by InitializeData.
- UserService.DeleteUser and AdminController.DeleteUser: the foreign keys are not modelled. In the application, deleting a user who owns apartments (john.doe or jane.smith after seeding) violates the apartments' owner_id foreign key (entity/Apartment.java:71-73). AdminController.deleteUser then reports an error and nothing is deleted (controller/AdminController.java:224-226). The model removes the account, and apartments and parking spaces that refer to it keep its id.
- UserService.SaveUser: modelled for accounts without an id, which is what the application's forms and the seeding send. The source's save of an account that carries an id merges it onto the stored row; that case is not modelled.
- The JPA bean-validation annotations are not enforced by the store. `ValidApartment` states them, and the controllers' validation result is the `hasErrors` parameter.
- AdminController.UpdateAgent: the submitted account is stored under the path id.
- ParkingService orders candidates by store position, not lexicographically. The model has no apartment status transition table.
