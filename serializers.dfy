/** The serializers of the expense engine: the entry checks an expense must
    pass before it is stored, the split calculator that shows one expense from
    one viewing user's side, and the field checks of a registration. */
module Serializers {
  import opened Wrappers
  import opened Money
  import opened Models

  /** The request field an error is reported against. */
  datatype Field = AmountField | PaidByField | SplitAmongField | Password1Field | UsernameField | EmailField

  /** A validation error: the offending field and its message. */
  datatype FieldError = FieldError(field: Field, message: string)

  const AmountMessage: string := "Amount must be greater than zero."
  const NotMemberSuffix: string := " is not a member of the selected group."

  /** An expense request after its fields were resolved: the group and users
      are the stored records the names refer to, and `splitAmong` lists the
      users in the order the request gave them. */
  datatype ExpenseData = ExpenseData(
    group: Group,
    description: string,
    amount: Amount,
    paidBy: User,
    splitAmong: seq<User>)

  /** The entry invariants of an expense: a positive amount, and a payer and
      split users who all belong to the group. */
  ghost predicate Admissible(data: ExpenseData)
  {
    && data.amount > 0
    && data.paidBy in data.group.members
    && forall u :: u in data.splitAmong ==> u in data.group.members
  }

  /** The position of the first user of `users` who is not in `members`. */
  function FirstOutside(users: seq<User>, members: set<User>): (r: Option<nat>)
    ensures r.Some? ==> r.value < |users| && users[r.value] !in members
    ensures r.Some? ==> forall j :: 0 <= j < r.value ==> users[j] in members
    ensures r.None? ==> forall j :: 0 <= j < |users| ==> users[j] in members
  {
    if users == [] then None
    else if users[0] !in members then Some(0)
    else match FirstOutside(users[1..], members)
      case None => None
      case Some(k) => Some(k + 1)
  }

  /** The expense checks, in order: the amount, then the payer, then each
      split user in request order. The first failure is the error; when all
      pass, the data is returned unchanged. */
  function ValidateExpense(data: ExpenseData): (r: Result<ExpenseData, FieldError>)
    ensures r.Success? <==> Admissible(data)
    ensures r.Success? ==> r.value == data
    ensures data.amount <= 0 ==> r == Failure(FieldError(AmountField, AmountMessage))
    ensures data.amount > 0 && data.paidBy !in data.group.members ==>
      r == Failure(FieldError(PaidByField, data.paidBy.username + NotMemberSuffix))
    ensures data.amount > 0 && data.paidBy in data.group.members ==>
      forall k :: (0 <= k < |data.splitAmong| && data.splitAmong[k] !in data.group.members &&
        (forall j :: 0 <= j < k ==> data.splitAmong[j] in data.group.members)) ==>
        r == Failure(FieldError(SplitAmongField, data.splitAmong[k].username + NotMemberSuffix))
  {
    if data.amount <= 0 then
      Failure(FieldError(AmountField, AmountMessage))
    else if data.paidBy !in data.group.members then
      Failure(FieldError(PaidByField, data.paidBy.username + NotMemberSuffix))
    else match FirstOutside(data.splitAmong, data.group.members)
      case Some(k) => Failure(FieldError(SplitAmongField, data.splitAmong[k].username + NotMemberSuffix))
      case None => Success(data)
  }

  /** The expense stored for validated data under id `id`: the split users
      become a set, so a user named twice is held once. */
  function Saved(data: ExpenseData, id: nat): (e: Expense)
    ensures e.id == id && e.group == data.group.id && e.amount == data.amount
    ensures e.description == data.description && e.paidBy == data.paidBy
    ensures forall u :: u in e.splitAmong <==> u in data.splitAmong
  {
    Expense(id, data.group.id, data.description, data.amount, data.paidBy, set u | u in data.splitAmong)
  }

  /** A stored expense that passed validation keeps the entry invariants:
      positive amount, payer and split within the group's members, and no
      more split users than the request listed. */
  lemma SavedKeepsEntryInvariants(data: ExpenseData, id: nat)
    requires ValidateExpense(data).Success?
    ensures Saved(data, id).amount > 0
    ensures Saved(data, id).paidBy in data.group.members
    ensures Saved(data, id).splitAmong <= data.group.members
    ensures |Saved(data, id).splitAmong| <= |data.splitAmong|
  {
    DistinctCount(data.splitAmong);
  }

  /** A sequence has at least as many entries as the set of its entries, and
      exactly as many when no entry repeats. */
  lemma {:induction false} DistinctCount(s: seq<User>)
    ensures |set u | u in s| <= |s|
    ensures Distinct(s) ==> |set u | u in s| == |s|
  {
    if s != [] {
      DistinctCount(s[1..]);
      assert (set u | u in s) == (set u | u in s[1..]) + {s[0]};
      if Distinct(s) {
        assert s[0] !in s[1..];
      }
    }
  }

  predicate Distinct(s: seq<User>)
  {
    forall i, j :: 0 <= i < j < |s| ==> s[i] != s[j]
  }

  // ---------------------------------------------------------------------
  // Split calculator: one expense seen by one viewer.

  /** The viewer's relation to an expense; the payer check comes first. */
  datatype Role = Payer | Participant | Uninvolved

  function RoleOf(e: Expense, viewer: User): Role
  {
    if viewer == e.paidBy then Payer
    else if viewer in e.splitAmong then Participant
    else Uninvolved
  }

  /** The number of shares: everyone in the split plus one for the payer,
      who is counted again when also in the split. */
  function ShareCount(e: Expense): (n: int)
    ensures n >= 1
    ensures e.paidBy in e.splitAmong ==> n == |e.splitAmong - {e.paidBy}| + 2
    ensures e.paidBy !in e.splitAmong ==> n == |e.splitAmong + {e.paidBy}|
  {
    |e.splitAmong| + 1
  }

  /** One share: the amount over the share count, rounded half-even to the
      cent. Together the shares miss the amount by at most half a cent each. */
  function ShareAmount(e: Expense): (share: int)
    ensures -ShareCount(e) <= 2 * (share * ShareCount(e) - e.amount) <= ShareCount(e)
    ensures (2 * (share * ShareCount(e) - e.amount) == ShareCount(e) ||
             2 * (share * ShareCount(e) - e.amount) == -ShareCount(e)) ==> share % 2 == 0
    ensures e.amount > 0 ==> share >= 0
  {
    DivRoundHalfEven(e.amount, ShareCount(e))
  }

  /** The viewer's share: one share for the payer or a split user, nothing
      for anyone else. */
  function UserShare(e: Expense, viewer: User): (r: int)
    ensures RoleOf(e, viewer) != Uninvolved ==> r == ShareAmount(e)
    ensures RoleOf(e, viewer) == Uninvolved ==> r == 0
    ensures e.amount > 0 ==> r >= 0
  {
    if viewer in e.splitAmong || viewer == e.paidBy then ShareAmount(e) else 0
  }

  const PaidByLabel: string := "Paid By"
  const PaidToPrefix: string := "Paid To "

  /** Which way the money goes for the viewer: the payer reads "Paid By",
      even when also in the split; a split user reads "Paid To" and the
      payer's username; anyone else gets no label. */
  function PaidToOrBy(e: Expense, viewer: User): (r: Option<string>)
    ensures r.None? <==> RoleOf(e, viewer) == Uninvolved
    ensures RoleOf(e, viewer) == Payer ==> r == Some(PaidByLabel)
    ensures RoleOf(e, viewer) == Participant ==> r == Some(PaidToPrefix + e.paidBy.username)
  {
    if viewer == e.paidBy then Some(PaidByLabel)
    else if viewer in e.splitAmong then Some(PaidToPrefix + e.paidBy.username)
    else None
  }

  /** What the viewer receives (as payer) or pays (as split user): the payer
      is owed one share from each of the other shares, a split user owes one
      share, anyone else nothing. */
  function AmountToReceiveOrPay(e: Expense, viewer: User): (r: int)
    ensures RoleOf(e, viewer) == Payer ==> r == (ShareCount(e) - 1) * ShareAmount(e)
    ensures RoleOf(e, viewer) == Participant ==> r == ShareAmount(e)
    ensures RoleOf(e, viewer) == Uninvolved ==> r == 0
    ensures e.amount > 0 ==> r >= 0
  {
    var n := ShareCount(e);
    var share := ShareAmount(e);
    if viewer == e.paidBy then
      NonNegativeProduct(n - 1, share);
      (n - 1) * share
    else if viewer in e.splitAmong then share
    else 0
  }

  lemma NonNegativeProduct(a: int, b: int)
    ensures a >= 0 && b >= 0 ==> a * b >= 0
  {
  }

  /** What the split users other than the payer pay together, adding up the
      amounts `viewers` pay in turn. */
  function TotalPaid(e: Expense, viewers: seq<User>): int
  {
    if viewers == [] then 0 else AmountToReceiveOrPay(e, viewers[0]) + TotalPaid(e, viewers[1..])
  }

  lemma {:induction false} TotalPaidBySplitUsers(e: Expense, viewers: seq<User>)
    requires forall v :: v in viewers ==> v in e.splitAmong && v != e.paidBy
    ensures TotalPaid(e, viewers) == |viewers| * ShareAmount(e)
  {
    if viewers != [] {
      TotalPaidBySplitUsers(e, viewers[1..]);
      assert |viewers| * ShareAmount(e) == ShareAmount(e) + (|viewers| - 1) * ShareAmount(e);
    }
  }

  /** The payer is owed exactly what the other split users pay when the payer
      is not in the split. When the payer is also in the split, the payer is
      owed one share more than the others pay. `viewers` lists each split
      user other than the payer once. */
  lemma PayerIsOwedWhatOthersPay(e: Expense, viewers: seq<User>)
    requires Distinct(viewers)
    requires forall v :: v in viewers <==> v in e.splitAmong && v != e.paidBy
    ensures e.paidBy !in e.splitAmong ==> AmountToReceiveOrPay(e, e.paidBy) == TotalPaid(e, viewers)
    ensures e.paidBy in e.splitAmong ==> AmountToReceiveOrPay(e, e.paidBy) == TotalPaid(e, viewers) + ShareAmount(e)
  {
    TotalPaidBySplitUsers(e, viewers);
    SplitSize(e, viewers);
    var extra := if e.paidBy in e.splitAmong then 1 else 0;
    SumTimes(|viewers|, extra, ShareAmount(e));
  }

  lemma SumTimes(a: int, b: int, c: int)
    ensures (a + b) * c == a * c + b * c
  {
  }

  /** The split holds the listed users other than the payer, and the payer
      once more when the payer is in it. */
  lemma SplitSize(e: Expense, viewers: seq<User>)
    requires Distinct(viewers)
    requires forall v :: v in viewers <==> v in e.splitAmong && v != e.paidBy
    ensures |e.splitAmong| == |viewers| + (if e.paidBy in e.splitAmong then 1 else 0)
  {
    DistinctCount(viewers);
    assert (set u | u in viewers) == e.splitAmong - {e.paidBy};
    if e.paidBy in e.splitAmong {
      assert e.splitAmong == (e.splitAmong - {e.paidBy}) + {e.paidBy};
    } else {
      assert e.splitAmong - {e.paidBy} == e.splitAmong;
    }
  }

  /** An expense as the viewer sees it: the expense's own fields with the
      group by name and users by username, and the viewer's share, label and
      amount to receive or pay. */
  datatype ExpenseWithShare = ExpenseWithShare(
    id: nat,
    group: string,
    description: string,
    amount: int,
    paidBy: string,
    splitAmong: set<string>,
    userShare: int,
    paidToOrBy: Option<string>,
    amountToReceiveOrPay: int)

  /** The viewer's projection of an expense: an unlabelled row is one where
      the viewer neither shares nor owes anything. */
  function Represent(e: Expense, groupName: string, viewer: User): (r: ExpenseWithShare)
    ensures r.id == e.id && r.amount == e.amount && r.group == groupName
    ensures r.description == e.description && r.paidBy == e.paidBy.username
    ensures r.splitAmong == (set u | u in e.splitAmong :: u.username)
    ensures r.userShare == UserShare(e, viewer) && r.paidToOrBy == PaidToOrBy(e, viewer)
    ensures r.amountToReceiveOrPay == AmountToReceiveOrPay(e, viewer)
    ensures r.paidToOrBy.Some? && r.paidToOrBy != Some(PaidByLabel) ==> r.amountToReceiveOrPay == r.userShare
    ensures r.paidToOrBy.None? ==> r.userShare == 0 && r.amountToReceiveOrPay == 0
    ensures r.paidToOrBy.Some? ==> r.userShare == ShareAmount(e)
    ensures r.paidToOrBy == Some(PaidByLabel) ==> r.amountToReceiveOrPay == |e.splitAmong| * r.userShare
  {
    ExpenseWithShare(
      e.id, groupName, e.description, e.amount, e.paidBy.username,
      set u | u in e.splitAmong :: u.username,
      UserShare(e, viewer), PaidToOrBy(e, viewer), AmountToReceiveOrPay(e, viewer))
  }

  /** The three-way example: 90.00 paid by Alice and split among Bob and
      Carol gives shares of 30.00; Alice is owed 60.00, Bob and Carol owe
      30.00 each, and Dave, outside the expense, sees nothing. */
  lemma ThreeWaySplitExample()
    ensures var alice, bob := User(1, "alice", "alice@example.com"), User(2, "bob", "bob@example.com");
      var carol, dave := User(3, "carol", "carol@example.com"), User(4, "dave", "dave@example.com");
      var e := Expense(1, 1, "dinner", 9000, alice, {bob, carol});
      && ShareAmount(e) == 3000
      && AmountToReceiveOrPay(e, alice) == 6000 && PaidToOrBy(e, alice) == Some("Paid By")
      && AmountToReceiveOrPay(e, bob) == 3000 && PaidToOrBy(e, bob) == Some("Paid To alice")
      && AmountToReceiveOrPay(e, carol) == 3000
      && UserShare(e, dave) == 0 && AmountToReceiveOrPay(e, dave) == 0 && PaidToOrBy(e, dave) == None
  {
    var alice, bob := User(1, "alice", "alice@example.com"), User(2, "bob", "bob@example.com");
    var carol := User(3, "carol", "carol@example.com");
    var e := Expense(1, 1, "dinner", 9000, alice, {bob, carol});
    assert |{bob, carol}| == 2;
    assert ShareCount(e) == 3;
    assert DivRoundHalfEven(9000, 3) == 3000;
    assert ShareAmount(e) == 3000;
    assert AmountToReceiveOrPay(e, alice) == 6000;
    assert PaidToPrefix + alice.username == "Paid To alice";
  }

  // ---------------------------------------------------------------------
  // Registration field checks.

  /** A registration request: the password is given twice. */
  datatype RegistrationData = RegistrationData(
    username: string,
    firstName: string,
    lastName: string,
    email: string,
    password: string,
    password1: string)

  const PasswordMismatchMessage: string := "Passwords do not match."
  const UsernameTakenMessage: string := "Username is already taken."
  const EmailTakenMessage: string := "Email is already registered."

  /** The registration checks, in order: the two passwords agree, the
      username is not taken, the email is not registered. */
  function ValidateRegistration(data: RegistrationData, users: set<User>): (r: Result<RegistrationData, FieldError>)
    ensures r.Success? <==>
      && data.password == data.password1
      && (forall u :: u in users ==> u.username != data.username)
      && (forall u :: u in users ==> u.email != data.email)
    ensures r.Success? ==> r.value == data
    ensures data.password != data.password1 ==> r == Failure(FieldError(Password1Field, PasswordMismatchMessage))
    ensures data.password == data.password1 && (exists u :: u in users && u.username == data.username) ==>
      r == Failure(FieldError(UsernameField, UsernameTakenMessage))
    ensures (data.password == data.password1 && (forall u :: u in users ==> u.username != data.username)
      && (exists u :: u in users && u.email == data.email)) ==>
      r == Failure(FieldError(EmailField, EmailTakenMessage))
  {
    if data.password != data.password1 then
      Failure(FieldError(Password1Field, PasswordMismatchMessage))
    else if exists u :: u in users && u.username == data.username then
      Failure(FieldError(UsernameField, UsernameTakenMessage))
    else if exists u :: u in users && u.email == data.email then
      Failure(FieldError(EmailField, EmailTakenMessage))
    else
      Success(data)
  }
}
