# Expense split engine of PocketSense, in Dafny

PocketSense is a Django application for sharing expenses within groups. This
project models its expense engine:

- the stored records: users, groups with a member set, and expenses with a
  payer and a set of users the expense is split among, each amount held as
  integer cents (`models.dfy`, module `Models`);
- the entry checks an expense must pass before it is stored, and the field
  checks of a registration (`serializers.dfy`, module `Serializers`);
- the split calculator, which shows one expense from one viewing user's side:
  the user's share, a "Paid By" / "Paid To <payer>" label and the amount to
  receive or pay (`serializers.dfy`);
- the viewer's expense list, and recording an expense in the ledger
  (`views.dfy`, module `Views`, with the class `ExpenseLedger`);
- amounts in cents, half-even rounding and the decimal text of an amount
  (`money.dfy`, module `Money`).

Amounts are `DecimalField(max_digits=10, decimal_places=2)`, so an amount of
`c` cents satisfies -10^10 < c < 10^10 (`Money.Amount`). A share is
`amount / (|split_among| + 1)` rounded half-even to the cent, which is what
Python's `round(Decimal, 2)` does under the default decimal context. The
payer always counts as one share, and counts again when the payer is also in
the split; the model keeps that behaviour and proves what it does to the
balance (`Serializers.PayerIsOwedWhatOthersPay`).

The viewing user is an explicit parameter wherever the code reads
`request.user`.

The labels are the literal strings "Paid By" and "Paid To <username>", the
absent label is `None`, and rounding is half-even, as in the code.

## Model

| member | source | states |
|---|---|---|
| Money.DivRoundHalfEven | student/serializers.py:85 | the rounded quotient is within half a unit of the exact one, even on a tie, and not negative for a non-negative amount |
| Money.DivRoundHalfEvenIsNearest | student/serializers.py:85 | no other multiple of the share count lies closer to the amount |
| Money.DivRoundHalfEvenUnique | student/serializers.py:85 | nearest-with-ties-to-even determines the rounded share uniquely |
| Money.FormatCents | student/models.py:28-29 | the amount is written with a decimal point before its last two digits and no spaces |
| Money.FormatCentsRoundTrip | student/models.py:22-29 | the two-place text of an amount reads back as that amount |
| Models.GroupsOf | student/models.py:12 | a user's groups are exactly the stored groups whose member set contains the user |
| Models.GroupTextIsName | student/models.py:14-15 | a group renders as its name, whatever its optional description and its members |
| Models.ExpenseTextShowsAmount | student/models.py:28-29 | an expense renders as its description, then the three characters " - ", then text that reads back as its amount |
| Models.DeleteGroup | student/models.py:19-20 | deleting a group removes exactly that group's expenses and keeps the foreign keys consistent |
| Models.DeleteUser | student/models.py:23-26 | deleting a user removes the expenses they paid and takes them out of every member set and remaining split; every group keeps its id, name and description and loses only that user, and nobody else's groups change |
| Models.DeleteGroupAppend | student/models.py:19-20 | deleting a group keeps every expense of other groups exactly once, in ledger order |
| Models.DeleteUserAppend | student/models.py:23-26 | deleting a user keeps every expense they did not pay exactly once, in ledger order, with the user taken out of its split |
| Serializers.FirstOutside | student/serializers.py:53-58 | finds the first split user, in request order, who is not a group member, or reports that all are members |
| Serializers.ValidateExpense | student/serializers.py:40-60 | succeeds exactly when amount > 0, the payer is a member and every split user is a member, returning the input unchanged; otherwise the error is on `amount` first, then `paid_by` naming the payer, then `split_among` naming the first non-member |
| Serializers.Saved | student/views.py:24 | the stored expense keeps the request's group, description, amount and payer, and its split set holds exactly the users the request listed |
| Serializers.SavedKeepsEntryInvariants | student/serializers.py:40-60 | a stored expense that passed validation has a positive amount, a member payer, a split within the members, and no more split users than the request listed |
| Serializers.ShareCount | student/serializers.py:83-84 | the share count is one more than the split size: the payer is counted once more even when also in the split |
| Serializers.ShareAmount | student/serializers.py:83-85 | shares times share count misses the amount by at most half a cent per share, ties go to an even share, and the share is not negative for a positive amount |
| Serializers.UserShare | student/serializers.py:79-89 | the payer and split users get one share, anyone else 0 |
| Serializers.PaidToOrBy | student/serializers.py:91-100 | the payer reads "Paid By" even when in the split, a split user reads "Paid To" and the payer's username, anyone else gets no label |
| Serializers.AmountToReceiveOrPay | student/serializers.py:102-115 | the payer receives (count - 1) shares (checked first), a split user pays one share, anyone else 0; never negative for a positive amount |
| Serializers.TotalPaidBySplitUsers | student/serializers.py:112-113 | split users other than the payer pay one share each, so together they pay their number times the share |
| Serializers.PayerIsOwedWhatOthersPay | student/serializers.py:104-113 | the payer is owed exactly what the others pay when not in the split, and one share more when also in it |
| Serializers.Represent | student/serializers.py:63-77 | the viewer's row keeps the expense's id, group name, description, amount, payer username and split usernames, and carries the viewer's share, label and amount to receive or pay; an unlabelled row has no share and no amount, a labelled one has one share, the payer's row is owed the split size times the share, and a split user's row pays one share |
| Serializers.ThreeWaySplitExample | student/serializers.py:79-115 | 90.00 paid by alice and split among bob and carol: shares of 30.00, alice owed 60.00 with "Paid By", bob owing 30.00 with "Paid To alice", an outsider seeing nothing |
| Serializers.ValidateRegistration | student/serializers.py:128-141 | succeeds exactly when the passwords agree and username and email are unused, returning the input; otherwise the error is on `password1` first, then `username`, then `email` |
| Views.VisibleExpenses | student/views.py:40-50 | selects exactly the ledger's expenses whose group contains the viewer, and none when no expense is in the viewer's groups |
| Views.UserExpenses | student/views.py:38-60 | "not found" exactly when the viewer is in no group; otherwise one row per selected expense, in ledger order, each projected with the viewer as the user |
| Views.UserExpensesAreTheViewersOwn | student/views.py:40-50 | every listed row is an expense of the ledger from one of the viewer's groups |
| Views.NoExpensesIsEmptyList | student/views.py:46-60 | a viewer in some group whose groups have no expenses gets an empty list, not "not found" |
| Views.VisibleExpensesAppend | student/views.py:50 | a new ledger entry is appended to a viewer's selection exactly when its group contains the viewer, leaving the earlier selection and its order as they were |
| Views.ExpenseLedger.Create | student/views.py:21-30 | an invalid request answers 400 with the first validation error and leaves the ledger unchanged; a valid one appends the saved expense under the next id and answers 201 with it |
| Views.RecordedExpenseIsVisible | student/views.py:50 | a recorded expense appears last in the list of every member of its group, the payer always included, and in no one else's |

## Left out

- Login (`LoginSerializer`, `LoginView`): password checks through Django's `authenticate`, token issuance, cookies and `last_login` are authentication plumbing and foreign calls.
- `RegistrationSerializer.create`: creating and hashing a user is a call into Django's user manager; only the field checks are modelled.
- `GroupViewSet` and the generic create/read/update/delete of `ExpenseViewSet` other than `create` are framework behaviour with no code of their own; group membership changes are therefore not modelled as operations.
- Name resolution of the request fields (group by name, users by username), with its "does not exist" and "multiple objects returned" errors, and the decimal field's own format errors: `ExpenseData` holds the already resolved records, and `Money.Amount` admits only amounts the field accepts.
- `created_at` timestamps, the routing in `student/urls.py`, the debugging `print` calls in `UserExpensesView.get`, and JSON rendering (a share is a `Decimal` where the absent case is the integer 0).
- The split computed in `ExpenseViewSet.create` after saving (student/views.py:26-28) is never used; `Views.ExpenseLedger.Create` omits it, and its response is the saved expense.
- Decimal arithmetic beyond two places: the quotient `amount / count` is first rounded to 28 significant digits by the default context and then to two places; the model rounds the exact quotient once. The first rounding cannot change the two-place result for a 10-digit amount at any realistic share count (fewer than about 10^15 users).
- Users are compared as whole records where Django compares primary keys; within one store, ids are unique, so the two agree.
- The row's split usernames are a set, where the serializer lists them in the order the database returns them.
- Views.UserExpensesAreTheViewersOwn: ties a row to its ledger expense by id only; the full row is given by Views.UserExpenses.
- The order of the viewer's list: the expense query has no ordering, so the database's order is unspecified; the model fixes it to ledger insertion order.
- Serializers.ValidateRegistration: the error order is that of `validate()` alone. The framework's field-level checks run first and are not modelled: `username` is unique on the user model, so a taken username is already rejected on `username` with "A user with that username already exists." before the password comparison runs, which leaves the branch at student/serializers.py:133-135 unreachable.
- Views.ExpenseLedger.Create: the field-level length limit of `description` (255 characters, student/models.py:21) is not modelled; a longer description is answered with 400 by the framework, where the model's response is 201.
