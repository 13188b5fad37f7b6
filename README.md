# UniBar: a verified model of the bar-management backend and its browser handlers

UniBar is a point-of-sale application for small bars. Each signed-in owner keeps menus,
table orders, reservations and a payment QR code in MongoDB. A Spring backend serves them
and a React frontend edits them. This project models the code that carries real logic, in Dafny:

- **The backend services.** These cover orders, menus, reservations, QR codes and accounts.
  The session's owner id is resolved from the security context, and every request is scoped to
  that owner. Exceptions are mapped to HTTP responses.
- **The React handlers.** These are the price field formatter, the menu list edits on the
  settings page, the reservation list and its two dialogs, the remaining-orders loader, the
  order-detail total, and the error messages and logout of the authentication client.

## How the model is built

- **Vocabulary.** A few predicates and functions name one source expression each and carry no contract of their own: `RemainingOrders.TableKey` (the key `tableOrders_${i}`), `RemainingOrders.Listed` (the two `if`s of the loop), `QrCodeApi.Uploadable` (the null-or-empty check), `ApiClient.OrElse` (`text || default`), `ApiClient.ThrownInTry`, `ReservationPage.Truthy` (JavaScript truthiness) and `ReservationForm.Filled` (the submit guard). Their meaning is pinned by the rows of the members that use them.
- **Repositories.** Each Mongo repository is a `map<string, Record>` from document id to
  document, held in a field of the service class.
- **Backend operations.** Each state-changing operation has a pure step function
  (`CreateMenuStep`, `PayOrderStep`, …). It returns the call's result together with the new
  store. The class method performs the update in place, and its `ensures` ties the new store
  and its result to the step function. Lemmas about the step functions state the
  cross-call properties: idempotence, commutation, owner isolation, undo.
- **Queries.** Derived repository queries (`findByOwnerIdOrderByCreatedAtAsc` and similar) are
  loops over the stored values, specified by membership, absence of duplicates and order.
- **Inputs the code reads from its environment.** These are parameters of the model:
  - the Spring `Authentication` (`Option<Authentication>`, `None` for no authentication);
  - the clock (`System.currentTimeMillis`, `LocalDateTime.now`, `Date.now`);
  - the id Mongo assigns (`newId`, required to be unused);
  - the password encoder and matcher, and the JWT creator (function-valued fields of
    `AuthService`);
  - JSON.parse (a function parameter);
  - the answers of server calls (`Option` or `bool` parameters, `None` or `false` for a
    failed call).
- **React state.** Component state is a value. Each handler takes the current state and
  returns the next state, plus the alert it shows and the request it sends. `loadTableOrders`
  keeps its `for` loop as a method. `localStorage` is a class with a mutable map for
  `logout`.
- **JavaScript built-ins.** `parseInt(s, 10)`, `String(n)`, `trim`, `replace(/c/g, …)` and
  `toLocaleString` with comma grouping are defined exactly, in module `JsText`, for the
  integer values the handlers use. Numbers that may come from `parseInt` are `JsNumber`, so
  NaN is carried where the code can produce it.

## Where the code and its surroundings disagree

The model follows the code in each of these cases:

- `OrderService.createOrder` sets an owner id on `Order`, yet
  `src/main/java/org/example/model/Order.java` declares no such field. The model's `Order`
  has `ownerId`.
- `OrderService` calls the owner-scoped finders `findByOwnerIdAndTableIdAndIsPaidFalse`,
  `findByOwnerIdAndIsCompletedFalseAndIsPaidTrue` and `findByOwnerIdOrderByCreatedAtDesc`.
  `OrderRepository.java` does not declare them. The model gives them the meaning of their
  derived-query names.
- `SecurityUtil` fails with a plain `RuntimeException`, and so does the reservation
  "not found" case. The exception handler therefore answers 500, not 401 or 404.
- `OrderService.createOrder` does not clear the id of the incoming order, unlike
  `createMenu` and `createReservation`. `Orders.OrderService.CreateOrder` saves as the code
  does, over a client-supplied id; the corrected create is `Orders.CreateOrderStep` (see
  "## Findings").
- In `Setting.tsx`, `editingMenuId` is declared `number | null` but is only ever assigned a
  menu's string id. The model keeps it as an optional string.

## Model

| member | source | states |
|---|---|---|
| SecurityUtil.CurrentUserId | src/main/java/org/example/util/SecurityUtil.java:16-34 | Succeeds exactly for an authenticated session whose principal is a UserDetails (its username) or a String (that string). Otherwise it fails with the "인증 정보가 없습니다." or "유효하지 않은 인증 정보입니다." runtime error. |
| GlobalExceptionHandler.ValidationMessage | src/main/java/org/example/exception/GlobalExceptionHandler.java:52-59 | The body is the first binding error's default message when there is one, else "잘못된 요청입니다.". |
| GlobalExceptionHandler.Handle | src/main/java/org/example/exception/GlobalExceptionHandler.java:15-68 | ResourceNotFound→404, BadRequest→400, Conflict→409 and Unauthorized→401 carry their message. Authentication→401 and access denied→403 have fixed bodies. Validation→400. Any other exception→500 with a fixed body. |
| GlobalExceptionHandler.ServerErrorOnlyForRuntime | src/main/java/org/example/exception/GlobalExceptionHandler.java:64-68 | 500 is answered exactly for the catch-all case; every other kind answers a 4xx status. |
| GlobalExceptionHandler.FixedBodyIgnoresMessage | src/main/java/org/example/exception/GlobalExceptionHandler.java:39-49 | For authentication, access-denied and catch-all exceptions the response does not depend on the exception's message. |
| GlobalExceptionHandler.ValidationBody | src/main/java/org/example/exception/GlobalExceptionHandler.java:51-62 | Both validation exception kinds give the same response: the first error's message, else the default. |
| GlobalExceptionHandler.MissingAuthenticationIsServerError | src/main/java/org/example/util/SecurityUtil.java:19-20 | A failed owner lookup reaches the client as 500 "서버 내부 오류가 발생했습니다.", not as 401. |
| Query.InsertBy | src/main/java/org/example/service/MenuService.java:22 | Inserting into a list ordered by the key keeps it ordered, and adds exactly that element (multiset). |
| Query.SortBy | src/main/java/org/example/service/MenuService.java:22 | The result is ordered by the key and is a permutation of the input. |
| Query.NoDupOccursOnce | src/main/java/org/example/service/MenuService.java:22 | In a list without duplicates every element occurs at most once. |
| Query.PermutationKeepsNoDup | src/main/java/org/example/service/MenuService.java:22 | A permutation of a duplicate-free list is duplicate-free. |
| Query.Select | src/main/java/org/example/service/OrderService.java:46 | A derived finder returns exactly the stored documents that satisfy its condition, each once. |
| Query.SelectSorted | src/main/java/org/example/service/MenuService.java:22 | A derived finder with OrderBy returns exactly the matching documents, each once, ordered by the key. |
| Orders.Stamp | src/main/java/org/example/service/OrderService.java:26-38 | A new order gets the owner, the millisecond order id and the creation time, and is unpaid and uncompleted. A missing date or time is filled from the clock, and every other field is kept. |
| Orders.CreateOrderAsWritten | src/main/java/org/example/service/OrderService.java:24-41 | As written: a failed owner lookup changes nothing; otherwise the call succeeds, and the saved order is the stamped order with the client-supplied id when there is one and the fresh id otherwise. It is stored under that id, replacing whatever was there, and stored ids stay consistent. |
| Orders.CreateOrderAsWrittenWithoutId | src/main/java/org/example/service/OrderService.java:24-41 | Without a client-supplied id, createOrder as written gives the same result and store as the corrected create. |
| Orders.CreateOrderAsWrittenIsolation | src/main/java/org/example/service/OrderService.java:24-41 | createOrder as written leaves another owner's orders unchanged exactly when the supplied id, if any, does not name one of that owner's stored orders. |
| Orders.CreateOrderAsWrittenOverwritesForeignOrder | src/main/java/org/example/service/OrderService.java:24-41 | Concretely: bob's createOrder carrying alice's order id replaces alice's paid order with one owned by bob, leaving alice with no orders. |
| Orders.CreateOrderStep | src/main/java/org/example/service/OrderService.java:24-41 | With the incoming id cleared, the stamped order is saved under a fresh id. Every existing order is untouched. A failed owner lookup changes nothing. |
| Orders.PayOrderStep | src/main/java/org/example/service/OrderService.java:50-61 | Succeeds exactly when the order exists and belongs to the caller. A missing order gives 404 "주문을 찾을 수 없습니다.", and another owner's order gives "이 주문에 대한 권한이 없습니다.". On success only that order changes, to paid. |
| Orders.CompleteOrderStep | src/main/java/org/example/service/OrderService.java:70-81 | The same checks as payment. On success only that order changes, to completed. |
| Orders.PayOrderIdempotent | src/main/java/org/example/service/OrderService.java:59-60 | Paying twice gives the same result and store as paying once. |
| Orders.PayAndCompleteCommute | src/main/java/org/example/service/OrderService.java:59-80 | Paying then completing leaves the same store as completing then paying. |
| Orders.OwnerViewKept | src/main/java/org/example/service/OrderService.java:55-60 | Changing one record of another owner, or adding one, leaves a given owner's orders as they were. |
| Orders.CallsIsolateOwners | src/main/java/org/example/service/OrderService.java:24-81 | Pay, complete and the corrected create (CreateOrderStep) never change the orders of any owner other than the caller. For createOrder as written see CreateOrderAsWrittenIsolation. |
| Orders.OrderLifecycle | src/main/java/org/example/service/OrderService.java:44-81 | A new order (created by the corrected create, or as written without a client id) is listed unpaid at its table and not as remaining. Once paid it is remaining and no longer unpaid. Once completed it is on neither list. |
| Orders.CompleteDoesNotRequirePayment | src/main/java/org/example/service/OrderService.java:70-81 | An unpaid order of the caller can be completed, and it stays unpaid. |
| Orders.OrderService.CreateOrder | src/main/java/org/example/service/OrderService.java:24-41 | Sets the fields one by one and saves without clearing the incoming id. The result and new store are those of CreateOrderAsWritten, and stored ids stay consistent. |
| Orders.OrderService.GetOrdersByTableId | src/main/java/org/example/service/OrderService.java:44-47 | Exactly the caller's unpaid orders of that table, each once. |
| Orders.OrderService.PayOrder | src/main/java/org/example/service/OrderService.java:50-61 | Result and new store are those of PayOrderStep. |
| Orders.OrderService.GetRemainingOrders | src/main/java/org/example/service/OrderService.java:64-67 | Exactly the caller's orders that are paid and not completed, each once. |
| Orders.OrderService.CompleteOrder | src/main/java/org/example/service/OrderService.java:70-81 | Result and new store are those of CompleteOrderStep. |
| Orders.OrderService.GetAllOrders | src/main/java/org/example/service/OrderService.java:84-87 | Exactly the caller's orders, each once, newest first. |
| Menus.CreateMenuStep | src/main/java/org/example/service/MenuService.java:25-33 | The id is cleared, and the menu gets the owner, millisecond menu id and creation time. It is saved under a fresh id, and other menus are untouched. |
| Menus.UpdateMenuStep | src/main/java/org/example/service/MenuService.java:35-43 | Succeeds exactly when the id names a menu of the caller; otherwise the result is 404 "메뉴를 찾을 수 없습니다.". On success only the name and price of that menu change. |
| Menus.DeleteMenuStep | src/main/java/org/example/service/MenuService.java:45-51 | The same lookup. On success exactly that menu is removed, and other menus are untouched. |
| Menus.DeleteUndoesCreate | src/main/java/org/example/service/MenuService.java:25-51 | Deleting the menu just created restores the previous store. |
| Menus.UpdateMenuIdempotent | src/main/java/org/example/service/MenuService.java:35-43 | Applying the same update twice equals applying it once. |
| Menus.MenuService.GetMenus | src/main/java/org/example/service/MenuService.java:20-23 | Exactly the caller's menus, each once, oldest first. |
| Menus.MenuService.CreateMenu | src/main/java/org/example/service/MenuService.java:25-33 | Result and new store are those of CreateMenuStep. |
| Menus.MenuService.UpdateMenu | src/main/java/org/example/service/MenuService.java:35-43 | Result and new store are those of UpdateMenuStep. |
| Menus.MenuService.DeleteMenu | src/main/java/org/example/service/MenuService.java:45-51 | Result and new store are those of DeleteMenuStep. |
| Reservations.Stamp | src/main/java/org/example/service/ReservationService.java:22-28 | The id is cleared, and the reservation gets the owner, millisecond reservation id and creation time. A null status becomes "confirmed", and the customer fields are kept. |
| Reservations.CreateReservationStep | src/main/java/org/example/service/ReservationService.java:21-30 | The stamped reservation is saved under a fresh id; other reservations are untouched. |
| Reservations.UpdateReservationStep | src/main/java/org/example/service/ReservationService.java:32-41 | Succeeds exactly when the id names a reservation of that owner; otherwise it is a runtime error "Reservation not found". On success the five customer fields, status included, are copied and nothing else changes. |
| Reservations.DeleteReservationStep | src/main/java/org/example/service/ReservationService.java:43-47 | The same lookup. On success exactly that reservation is removed. |
| Reservations.DeleteUndoesCreate | src/main/java/org/example/service/ReservationService.java:21-47 | Deleting the reservation just created restores the previous store. |
| Reservations.UpdateCopiesNullStatus | src/main/java/org/example/service/ReservationService.java:39 | Unlike creation, an update with a null status stores a null status. |
| Reservations.ReservationService.GetReservations | src/main/java/org/example/service/ReservationService.java:17-19 | Exactly that owner's reservations, each once, oldest first. |
| Reservations.ReservationService.CreateReservation | src/main/java/org/example/service/ReservationService.java:21-30 | Result and new store are those of CreateReservationStep. |
| Reservations.ReservationService.UpdateReservation | src/main/java/org/example/service/ReservationService.java:32-41 | Result and new store are those of UpdateReservationStep. |
| Reservations.ReservationService.DeleteReservation | src/main/java/org/example/service/ReservationService.java:43-47 | Result and new store are those of DeleteReservationStep. |
| QrCodes.LatestAfterSave | src/main/java/org/example/service/QrCodeService.java:21-32 | After a save, the owner has a latest code, and every latest code is the one just saved with the new image. This needs one code per owner before, or all older codes strictly older. |
| QrCodes.SaveKeepsOnePerOwner | src/main/java/org/example/service/QrCodeService.java:24-31 | Saving reuses the owner's latest document, so "at most one code per owner" is preserved. |
| QrCodes.QrCodeService.FindLatest | src/main/java/org/example/service/QrCodeService.java:24 | Finds a code of the owner with the greatest creation time, or reports that the owner has none. |
| QrCodes.QrCodeService.GetLatestQrCode | src/main/java/org/example/service/QrCodeService.java:34-38 | Null exactly when the caller has no code, else a latest code of the caller. |
| QrCodes.QrCodeService.SaveQrCode | src/main/java/org/example/service/QrCodeService.java:21-32 | The owner, image and time are set on the latest document or on a new one, which is then saved. An owner who had a code keeps the same set of documents; otherwise one new id is added. A failed owner lookup changes nothing. |
| QrCodeApi.LatestResponse | src/main/java/org/example/controller/QrCodeController.java:20-26 | 204 with no body exactly when there is no code, else 200 with the code. |
| QrCodeApi.QrCodeController.GetQrCode | src/main/java/org/example/controller/QrCodeController.java:20-26 | 204 exactly when the caller has no code; otherwise 200 with a latest code of the caller. |
| QrCodeApi.QrCodeController.UploadQrCode | src/main/java/org/example/controller/QrCodeController.java:29-35 | A null or empty image answers 400 before the service is called, with the store unchanged; otherwise 200 with the saved code. |
| Auth.AuthService.FindByUsername | src/main/java/org/example/service/AuthService.java:40 | Finds the user with the username, or reports that none exists. |
| Auth.AuthService.Signup | src/main/java/org/example/service/AuthService.java:23-37 | A taken username answers 409 "이미 존재하는 아이디입니다." and changes nothing. Otherwise one user is added with the encoded password and role "ROLE_USER", and usernames stay unique. |
| Auth.AuthService.Login | src/main/java/org/example/service/AuthService.java:39-50 | Succeeds exactly when a user with that username has a matching password, with a token for that user and the user's id and name. In both failing cases the error is "아이디 또는 비밀번호가 일치하지 않습니다.". |
| Auth.AuthService.ResetPassword | src/main/java/org/example/service/AuthService.java:53-63 | Succeeds exactly when the current password matches; then only that user's password changes, to the encoded new one. Otherwise the same 401 error, with nothing changed. |
| JsText.TrimStart | frontend/src/pages/Setting.tsx:124 | Removes exactly a leading run of whitespace: the result is a suffix that does not start with whitespace. |
| JsText.TrimEnd | frontend/src/pages/Setting.tsx:124 | Removes exactly a trailing run of whitespace. |
| JsText.Trim | frontend/src/pages/Setting.tsx:124 | `!s.trim()` holds exactly for strings made only of whitespace. |
| JsText.DigitIsNotSpace | frontend/src/pages/Setting.tsx:124 | No decimal digit counts as whitespace. |
| JsText.TrimStartKeeps | frontend/src/pages/Setting.tsx:129 | A string not starting with whitespace is its own left trim. |
| JsText.DigitChar | frontend/src/pages/Setting.tsx:224 | Each digit value has a digit character. |
| JsText.DigitValue | frontend/src/pages/Setting.tsx:129 | Reading a digit character inverts DigitChar. |
| JsText.Decimal | frontend/src/pages/RemainingOrders.tsx:38 | The decimal text of a number is a non-empty run of digits without a leading zero. |
| JsText.DecimalValue | frontend/src/pages/RemainingOrders.tsx:38 | Reading the decimal text of n gives back n. |
| JsText.LeadingDigits | frontend/src/pages/Setting.tsx:129 | The longest prefix made of digits. |
| JsText.LeadingDigitsOfDigits | frontend/src/pages/Setting.tsx:129 | A string of digits is its own longest digit prefix. |
| JsText.ParseSigned | frontend/src/pages/Setting.tsx:224 | After the whitespace: a number only when a digit comes first or follows a sign, a negative number only after a minus sign, and a non-negative number whenever a digit comes first. |
| JsText.ParseInt | frontend/src/components/ReservationEditModal.tsx:41 | parseInt(s, 10): all-whitespace text is NaN, and a number comes only from text that contains a digit. |
| JsText.NumberToString | frontend/src/pages/Setting.tsx:113 | Number.prototype.toString (String(n)) of an integer is non-empty, starts with '-' exactly for a negative number, and is digits after that. |
| JsText.ParseIntOfDigits | frontend/src/pages/Setting.tsx:224 | parseInt of a non-empty digit string is its value. |
| JsText.ParseIntOfNegative | frontend/src/components/ReservationEditModal.tsx:41 | parseInt of a string made of a minus sign and a non-empty run of digits is the negated value of the digits. |
| JsText.ParseIntOfNaN | frontend/src/components/ReservationEditModal.tsx:41 | parseInt("NaN") is NaN. |
| JsText.ParseIntOfNumberToString | frontend/src/components/ReservationEditModal.tsx:29 | parseInt(String(x)) == x for every integer and for NaN. |
| JsText.RemoveChar | frontend/src/pages/Setting.tsx:129 | `replace(/,/g, '')` leaves no comma and never lengthens the text. |
| JsText.RemoveCharAppend | frontend/src/pages/Setting.tsx:222 | Removing commas distributes over concatenation. |
| JsText.RemoveAbsentChar | frontend/src/pages/Setting.tsx:222 | Text without commas is unchanged by removing them. |
| JsText.ReplaceChar | frontend/src/pages/Reservation.tsx:82 | Each occurrence of the character is replaced, every other character is kept, and the length is unchanged. |
| JsText.Pad3 | frontend/src/pages/Setting.tsx:224 | A group below 1000 is written as exactly three digits. |
| JsText.Grouped | frontend/src/pages/Setting.tsx:224 | The grouped text is non-empty, starts with a digit and holds only digits and commas. |
| JsText.LocaleString | frontend/src/pages/Setting.tsx:162 | A negative number is a minus sign before the grouped text of its magnitude. |
| JsText.DropLastDigit | frontend/src/pages/Setting.tsx:224 | The arithmetic facts that dropping the last digit keeps the last three-digit group aligned. |
| JsText.DropTwoDigits | frontend/src/pages/Setting.tsx:224 | The same facts for two-digit groups. |
| JsText.DecimalSplit | frontend/src/pages/Setting.tsx:224 | The decimal text of n ≥ 1000 is that of n / 1000 followed by the padded last three digits. |
| JsText.UngroupGrouped | frontend/src/pages/Setting.tsx:129 | Removing the commas of the grouped text gives the plain decimal text. |
| JsText.LocaleStringReadBack | frontend/src/pages/Setting.tsx:162 | Stripping the commas of toLocaleString's text and parsing the rest gives back any integer, negative or not. |
| JsText.GroupedRoundTrip | frontend/src/pages/Setting.tsx:129 | Stripping commas from the grouped text and parsing it gives back the number. |
| SettingPage.Decrease | frontend/src/pages/Setting.tsx:98-102 | Lowers the count by one above 1, and is a no-op at 1 or below and on NaN. It never takes a count of at least 1 below 1. |
| SettingPage.Increase | frontend/src/pages/Setting.tsx:104-106 | Raises the count by exactly one; NaN stays NaN. |
| SettingPage.DecreaseUndoesIncrease | frontend/src/pages/Setting.tsx:98-106 | From any count of at least one, "+" followed by "−" returns to it. |
| SettingPage.ConfirmSave | frontend/src/pages/Setting.tsx:112-116 | The count's text is stored under "tableCount", and other keys are kept. |
| SettingPage.LoadTableCount | frontend/src/pages/Setting.tsx:36-41 | A stored non-empty text replaces the initial count with its decimal parse; otherwise the initial count stays. |
| SettingPage.LoadAfterSave | frontend/src/pages/Setting.tsx:36-116 | Reloading after a save shows exactly the saved count, NaN included. |
| SettingPage.PriceInput | frontend/src/pages/Setting.tsx:221-226 | Input that is neither empty nor all digits once commas are removed leaves the field unchanged. Empty input clears it. Otherwise the new text is the digits' value grouped in threes with commas, and it parses, commas removed, to the same number as the input. |
| SettingPage.PriceInputFixesGrouped | frontend/src/pages/Setting.tsx:221-226 | Text already in grouped form is left exactly as it is. |
| SettingPage.CheckMenuInput | frontend/src/pages/Setting.tsx:124-133 | A blank name or price gives "메뉴명과 금액을 모두 입력해주세요.". A price whose parse is NaN or ≤ 0 gives "올바른 금액을 입력해주세요.". Otherwise the trimmed name and positive parsed price are accepted. |
| SettingPage.GroupedPriceAccepted | frontend/src/pages/Setting.tsx:129 | With a non-blank name, a positive price in grouped form is accepted as that number. |
| SettingPage.MenuIdOf | frontend/src/pages/Setting.tsx:143 | The kept id is the server id, else the numeric menu id as text, else "". |
| SettingPage.FromApi | frontend/src/pages/Setting.tsx:142-146 | The listed menu has MenuIdOf's id and the server's name and price. |
| SettingPage.AddMenu | frontend/src/pages/Setting.tsx:123-156 | A rejected input shows its alert, sends nothing and changes nothing. An accepted one sends a create call with the checked request. On success exactly one entry is appended and the fields are cleared; on failure only the alert "메뉴 등록에 실패했습니다." is shown. |
| SettingPage.OpenEditModal | frontend/src/pages/Setting.tsx:159-164 | Opens the dialog on the menu's id and name. The price field shows the menu's price as `toLocaleString` renders it, with comma grouping and a leading '-' for a negative price. That text reads back as the same number once the commas are removed, for every price, negative ones included. |
| SettingPage.RenameMenus | frontend/src/pages/Setting.tsx:187-191 | Exactly the entries with that id take the new name and price; length, order and all other entries are kept. |
| SettingPage.EditMenu | frontend/src/pages/Setting.tsx:167-202 | The same checks as adding. With no menu being edited it returns silently. Otherwise it sends an update call for the menu being edited, with the checked request as its body. On success it renames by id and closes and clears the dialog; on failure it shows "메뉴 수정에 실패했습니다.". The list length never changes. |
| SettingPage.EditUnchangedSendsSamePrice | frontend/src/pages/Setting.tsx:159-181 | Opening the dialog on a positively priced, named menu and saving unchanged sends an update of that menu's id with its trimmed name and exact price. |
| SettingPage.WithoutMenu | frontend/src/pages/Setting.tsx:212 | The kept entries are exactly those whose id differs. |
| SettingPage.WithoutMenuAppend | frontend/src/pages/Setting.tsx:212 | Filtering distributes over concatenation, so the kept entries stay in their old order. |
| SettingPage.WithoutAbsentMenu | frontend/src/pages/Setting.tsx:212 | Deleting an id that is not listed changes nothing. |
| SettingPage.DeleteMenu | frontend/src/pages/Setting.tsx:205-218 | Without confirmation nothing happens and nothing is sent. A confirmed delete sends the delete call for that id. A successful one then filters out the id, and a failed one shows "메뉴 삭제에 실패했습니다.". |
| ReservationForm.Change | frontend/src/components/ReservationCreateModal.tsx:30-33 | Only the named field changes, to the typed text. |
| ReservationForm.FilledIffNoEmptyField | frontend/src/components/ReservationCreateModal.tsx:19 | The submit guard holds exactly when no field is empty. |
| ReservationForm.ChangeOverwrites | frontend/src/components/ReservationEditModal.tsx:47-50 | Typing into a field twice keeps only the last text. |
| ReservationCreateModal.Submit | frontend/src/components/ReservationCreateModal.tsx:17-28 | With an empty field nothing is registered and the form is unchanged. Otherwise the name, parsed guest count and date are registered once, and the form is reset. |
| ReservationCreateModal.TypedReservationRegistered | frontend/src/components/ReservationCreateModal.tsx:17-33 | Typing a name, a decimal count and a date into the empty form and submitting registers exactly those values. |
| ReservationCreateModal.SecondSubmitRegistersNothing | frontend/src/components/ReservationCreateModal.tsx:26 | After a registering submit, the cleared form cannot register again. |
| ReservationEditModal.Prefill | frontend/src/components/ReservationEditModal.tsx:25-33 | Opening fills the form from the reservation, with the guest count as its decimal text; a closed dialog keeps its form. |
| ReservationEditModal.Submit | frontend/src/components/ReservationEditModal.tsx:35-45 | Passes a reservation exactly when all fields are filled. It keeps the id and takes the form's name, parsed count and date. |
| ReservationEditModal.UneditedSubmitKeepsReservation | frontend/src/components/ReservationEditModal.tsx:25-45 | Opening and saving without edits gives back the same reservation, for any guest count. |
| ReservationPage.CreateReservation | frontend/src/pages/Reservation.tsx:40-47 | Appends exactly one reservation carrying the payload and the Date.now() id, keeps the old entries in front, and closes the dialog. |
| ReservationPage.ReplaceById | frontend/src/pages/Reservation.tsx:55-57 | Entries with the updated id are replaced; length, order and other entries are kept. |
| ReservationPage.EditClick | frontend/src/pages/Reservation.tsx:49-52 | Selects the reservation and opens the edit dialog, changing nothing else. |
| ReservationPage.EditReservation | frontend/src/pages/Reservation.tsx:54-60 | The list is replaced by id, the dialog closes and the selection clears. |
| ReservationPage.RemoveById | frontend/src/pages/Reservation.tsx:69 | The kept entries are exactly those whose id differs. |
| ReservationPage.RemoveByIdAppend | frontend/src/pages/Reservation.tsx:69 | Filtering distributes over concatenation, so order is kept. |
| ReservationPage.RemoveAbsentId | frontend/src/pages/Reservation.tsx:69 | Removing an unlisted id changes nothing. |
| ReservationPage.CompleteClick | frontend/src/pages/Reservation.tsx:62-65 | Selects the reservation and opens the completion dialog. |
| ReservationPage.CompleteConfirm | frontend/src/pages/Reservation.tsx:67-73 | With nothing selected nothing changes. Otherwise the selected id leaves the list, the dialog closes and the selection clears. |
| ReservationPage.HasValidData | frontend/src/pages/Reservation.tsx:75-77 | Truthy exactly when the name is non-empty, the guest count is a number above 0 and the date is non-empty. |
| ReservationPage.FormatDate | frontend/src/pages/Reservation.tsx:80-83 | Empty stays empty. Every '-' becomes '.', and everything else and the length are kept. |
| ReservationPage.ReplaceBySelf | frontend/src/pages/Reservation.tsx:55-57 | With unique ids, replacing a listed reservation by itself changes nothing. |
| ReservationPage.UneditedSaveKeepsList | frontend/src/pages/Reservation.tsx:49-60 | Clicking edit and saving the dialog unedited leaves the list unchanged, given unique ids and a named, dated reservation. |
| ReservationPage.CompleteUndoesCreate | frontend/src/pages/Reservation.tsx:40-73 | Completing a just-created reservation with a fresh id restores the previous list. |
| RemainingOrders.TableKeysDistinct | frontend/src/pages/RemainingOrders.tsx:38 | Different tables are read from different storage keys. |
| RemainingOrders.ShowItems | frontend/src/pages/RemainingOrders.tsx:45-49 | Each stored item maps in place: its menuId becomes id, and name and quantity are kept. |
| RemainingOrders.Entry | frontend/src/pages/RemainingOrders.tsx:42-50 | The entry of table i has id i, name "i번 테이블", no completion time, and as many items as were stored. |
| RemainingOrders.Visited | frontend/src/pages/RemainingOrders.tsx:37 | The loop visits tableCount tables, or none for a negative count or NaN. |
| RemainingOrders.Loaded | frontend/src/pages/RemainingOrders.tsx:35-53 | The list the loop builds over tables 1..m: one Entry per listed table, in table order; never more than m entries. |
| RemainingOrders.LoadedNoCompletionMark | frontend/src/pages/RemainingOrders.tsx:42-50 | A freshly loaded list has no completion time on any entry. |
| RemainingOrders.LoadTableOrders | frontend/src/pages/RemainingOrders.tsx:34-56 | The loop visits tables 1..tableCount in order and returns exactly Loaded of that many tables. |
| RemainingOrders.LoadedBounds | frontend/src/pages/RemainingOrders.tsx:37-52 | Loading m tables yields at most m entries, each with a table id between 1 and m. |
| RemainingOrders.LoadedAreEntries | frontend/src/pages/RemainingOrders.tsx:38-51 | Every loaded entry belongs to a listed table and is that table's Entry. |
| RemainingOrders.LoadedSorted | frontend/src/pages/RemainingOrders.tsx:37-52 | Loaded entries are strictly increasing by table id, so no table appears twice. |
| RemainingOrders.LoadedIndexOf | frontend/src/pages/RemainingOrders.tsx:38-51 | A listed table among 1..m has an entry in the loaded list, at the returned position. |
| RemainingOrders.LoadedComplete | frontend/src/pages/RemainingOrders.tsx:38-51 | A table among 1..m has an entry exactly when its stored text is non-empty and parses to a non-empty list. |
| RemainingOrders.Complete | frontend/src/pages/RemainingOrders.tsx:94-101 | Exactly the entries of that table get the completion time; length and other entries are kept. |
| RemainingOrders.CompleteKeepsTables | frontend/src/pages/RemainingOrders.tsx:96-100 | Completing keeps every entry's table id, name and items, so the table order survives. |
| RemainingOrders.CompleteTwice | frontend/src/pages/RemainingOrders.tsx:94-101 | Completing a table twice equals completing it once at the later time. |
| OrderDetail.FirstIndex | frontend/src/pages/OrderDetail.tsx:45 | The position of the first menu with the name, or the length when there is none. |
| OrderDetail.FindByName | frontend/src/pages/OrderDetail.tsx:45 | None exactly when no menu has the name; otherwise the first menu with it. |
| OrderDetail.LineAmount | frontend/src/pages/OrderDetail.tsx:45-46 | An item adds the price of the first menu with its name times its quantity, or 0 when no menu has the name. |
| OrderDetail.TotalPrice | frontend/src/pages/OrderDetail.tsx:44-47 | The reduce from the left: with no menus the total is 0, and a single item totals its line amount. |
| OrderDetail.TotalPriceNonNegative | frontend/src/pages/OrderDetail.tsx:44-47 | With non-negative prices and quantities the total is never negative. |
| OrderDetail.UnmatchedAddsNothing | frontend/src/pages/OrderDetail.tsx:46 | An item whose name is on no menu contributes 0. |
| OrderDetail.EmptyOrderTotal | frontend/src/pages/OrderDetail.tsx:44-47 | An empty order totals 0. |
| OrderDetail.TotalPriceSnoc | frontend/src/pages/OrderDetail.tsx:44-47 | The reduce step: one more item adds its line amount to the total so far. |
| OrderDetail.TotalPriceAppend | frontend/src/pages/OrderDetail.tsx:44-47 | The total of two orders side by side is the sum of their totals. |
| OrderDetail.SampleTotal | frontend/src/pages/OrderDetail.tsx:28-47 | Every sample item finds the first menu, so the sample order totals 40000. |
| ApiClient.FailureMessage | frontend/src/api/client.ts:38-47 | The rejection message is the body text when it is non-empty, else the default, however JSON.parse treats the body. |
| ApiClient.JsonMessageIgnored | frontend/src/api/client.ts:41-46 | A JSON body with a non-empty message field still rejects with the raw text, not that field. |
| ApiClient.Login | frontend/src/api/client.ts:29-50 | A failed reply rejects with the text or "로그인에 실패했습니다.", and a successful one resolves to the decoded body. |
| ApiClient.Signup | frontend/src/api/client.ts:53-73 | A failed reply rejects with the text or "회원가입에 실패했습니다.", and a successful one resolves to the body text. |
| ApiClient.ResetPassword | frontend/src/api/client.ts:76-96 | A failed reply rejects with the text or "비밀번호 재설정에 실패했습니다.", and a successful one resolves to the body text. |
| ApiClient.FailureMessageNonEmpty | frontend/src/api/client.ts:45 | A failed call never rejects with an empty message. |
| ApiClient.LocalStorage.RemoveItem | frontend/src/api/client.ts:100 | Exactly that key goes. |
| ApiClient.Logout | frontend/src/api/client.ts:99-103 | Exactly the keys token, userId and userName go; every other key keeps its value. |

## Left out

- The controllers other than the QR code controller, the Spring Security filter chain, JWT parsing and CORS are not modelled. They route requests and inject the owner id, which the model takes as an input.
- `BCryptPasswordEncoder` and `JwtTokenProvider` are parameters of `AuthService`. Their salting and signing are not modelled.
- The repositories are maps. Mongo's storage, indexes and the tie order of equal `createdAt` values are not modelled: sorted queries promise only an order compatible with the key. `findTop…OrderByCreatedAtDesc` picks some code with the greatest time.
- Clocks, `System.currentTimeMillis`, `Date.now` and `getCurrentTime` are inputs. The date and time formats they produce are not modelled.
- Null fields that make the Java code throw (`order.getOwnerId()` on an order saved without an owner) are not modelled. Every stored order has an owner.
- Login's `response.json()` and JSON.parse in `loadTableOrders` are inputs. A malformed body, which makes these throw, is not modelled.
- The 500 ms `setInterval` reload of the remaining orders (`RemainingOrders.tsx:61-63`) is not modelled. Each reload replaces the list with a freshly loaded one, which by `RemainingOrders.LoadedNoCompletionMark` carries no completion time, so a mark set by `handleComplete` lasts only until the next reload.
- The `storage` listeners, the file reading and size checks of the QR upload, the fetch wrappers of the other API clients, navigation, `alert`/`confirm` dialogs as UI, and JSX rendering are not modelled.
- JsText.ParseInt: numbers are unbounded integers, so floating-point precision beyond 2^53, `-0`, exponents, and the hexadecimal prefix that a radix-less `parseInt` would accept are not modelled. The guest-count inputs are `type="number"` fields.
- JsText.Grouped: models `toLocaleString` for a locale that groups digits in threes with commas, and integers only.
- SettingPage.LoadTableCount is modelled on the storage map as a value. The page reads storage directly every time it mounts. The same function also stands for the remaining-orders screen's own read of the count (frontend/src/pages/RemainingOrders.tsx:25-30): `parseInt(saved, 10)` when a value is stored, else the default 8. RemainingOrders.LoadTableOrders takes the resulting JsNumber as its tableCount.
- SettingPage.EditMenu: the server's reply to an update is a parameter, not tied to the request sent. The model states what is sent and, separately, what the page does with the reply.

## Findings

| source | as written | input that shows it | evidently intended | confidence | as-written member | corrected member |
|---|---|---|---|---|---|---|
| src/main/java/org/example/service/OrderService.java:24-41 | createOrder saves the incoming order without clearing its id. An id sent by the client therefore overwrites the stored order with that id, whoever owns it. | bob posts an order with id "o1"; "o1" is alice's paid order. Afterwards "o1" belongs to bob and alice has no orders. | The id is cleared before saving, as createMenu (MenuService.java:28) and createReservation (ReservationService.java:22) do, so a new order never replaces an existing one. | not executed | Orders.CreateOrderAsWrittenOverwritesForeignOrder | Orders.CreateOrderStep |
