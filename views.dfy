/** The request handlers of the expense engine: recording an expense in the
    ledger, and listing the expenses of a viewer's groups as the viewer sees
    them. The viewer is passed explicitly rather than read from the request. */
module Views {
  import opened Wrappers
  import opened Models
  import opened Serializers

  /** The "not found" answer (HTTP 404) for a viewer in no group. */
  datatype NotFound = NotFound(message: string)

  const NoGroupsMessage: string := "User is not part of any groups."

  /** The expenses whose group the viewer belongs to, in ledger order. */
  function VisibleExpenses(groups: map<nat, Group>, expenses: seq<Expense>, viewer: User): (r: seq<Expense>)
    ensures forall e :: e in r <==> e in expenses && e.group in groups && viewer in groups[e.group].members
    ensures (forall e :: e in expenses ==> e.group !in GroupsOf(groups, viewer)) ==> r == []
  {
    var ids := GroupsOf(groups, viewer);
    Filter(expenses, (e: Expense) => e.group in ids)
  }

  /** The viewer's expense list: "not found" when the viewer is in no group;
      otherwise one projection per expense of the viewer's groups, in ledger
      order, each computed with the viewer as the user. */
  function UserExpenses(groups: map<nat, Group>, expenses: seq<Expense>, viewer: User)
    : (r: Result<seq<ExpenseWithShare>, NotFound>)
    ensures r.Failure? <==> GroupsOf(groups, viewer) == {}
    ensures r.Failure? ==> r.error == NotFound(NoGroupsMessage)
    ensures r.Success? ==>
      var selected := VisibleExpenses(groups, expenses, viewer);
      && |r.value| == |selected|
      && forall i :: 0 <= i < |selected| ==>
           selected[i].group in groups && r.value[i] == Represent(selected[i], groups[selected[i].group].name, viewer)
  {
    if GroupsOf(groups, viewer) == {} then
      Failure(NotFound(NoGroupsMessage))
    else
      var selected := VisibleExpenses(groups, expenses, viewer);
      assert forall i :: 0 <= i < |selected| ==> selected[i] in selected;
      Success(seq(|selected|, i requires 0 <= i < |selected| =>
        Represent(selected[i], groups[selected[i].group].name, viewer)))
  }

  /** Each row of the viewer's list is an expense of the ledger from one of
      the viewer's groups. */
  lemma UserExpensesAreTheViewersOwn(groups: map<nat, Group>, expenses: seq<Expense>, viewer: User, i: nat)
    requires UserExpenses(groups, expenses, viewer).Success?
    requires i < |UserExpenses(groups, expenses, viewer).value|
    ensures exists e :: (e in expenses && e.group in groups && viewer in groups[e.group].members
      && UserExpenses(groups, expenses, viewer).value[i].id == e.id)
  {
  }

  /** A viewer in some group whose groups have no expenses gets an empty
      list, not "not found". */
  lemma NoExpensesIsEmptyList(groups: map<nat, Group>, expenses: seq<Expense>, viewer: User)
    requires GroupsOf(groups, viewer) != {}
    requires forall e :: e in expenses ==> e.group !in GroupsOf(groups, viewer)
    ensures UserExpenses(groups, expenses, viewer) == Success([])
  {
  }

  /** Appending an expense to the ledger appends it to the viewer's
      selection exactly when it belongs to one of the viewer's groups; the
      earlier selection is unchanged and keeps its order. */
  lemma VisibleExpensesAppend(groups: map<nat, Group>, expenses: seq<Expense>, e: Expense, viewer: User)
    ensures VisibleExpenses(groups, expenses + [e], viewer) ==
      VisibleExpenses(groups, expenses, viewer) +
      (if e.group in groups && viewer in groups[e.group].members then [e] else [])
  {
    var ids := GroupsOf(groups, viewer);
    var keep := (x: Expense) => x.group in ids;
    FilterConcat(expenses, [e], keep);
    assert [e][1..] == [];
  }

  // ---------------------------------------------------------------------
  // Recording an expense.

  /** The answer to a create request: the stored expense (HTTP 201) or the
      first validation error (HTTP 400). */
  datatype CreateResponse = Created(expense: Expense) | BadRequest(error: FieldError)
  {
    function Status(): int
    {
      if Created? then 201 else 400
    }
  }

  /** The stored expenses, in insertion order, and the id the next one gets. */
  class ExpenseLedger {
    var expenses: seq<Expense>
    var nextId: nat

    /** Ids are positive, increase along the ledger and stay below nextId;
        every stored amount is positive (it passed validation). */
    ghost predicate Valid()
      reads this
    {
      && nextId >= 1
      && (forall i :: 0 <= i < |expenses| ==> 0 < expenses[i].id < nextId && expenses[i].amount > 0)
      && (forall i, j :: 0 <= i < j < |expenses| ==> expenses[i].id < expenses[j].id)
    }

    constructor ()
      ensures Valid() && expenses == [] && nextId == 1
    {
      expenses := [];
      nextId := 1;
    }

    /** Validates the request and stores the expense only when it is valid;
        an invalid request leaves the ledger as it was. */
    method Create(data: ExpenseData) returns (response: CreateResponse)
      requires Valid()
      modifies this
      ensures Valid()
      ensures ValidateExpense(data).Failure? ==>
        && response == BadRequest(ValidateExpense(data).error)
        && expenses == old(expenses) && nextId == old(nextId)
      ensures ValidateExpense(data).Success? ==>
        && response == Created(Saved(data, old(nextId)))
        && expenses == old(expenses) + [response.expense]
        && nextId == old(nextId) + 1
      ensures response.Status() == (if Admissible(data) then 201 else 400)
    {
      var checked := ValidateExpense(data);
      match checked {
        case Failure(err) =>
          response := BadRequest(err);
        case Success(valid) =>
          var expense := Saved(valid, nextId);
          expenses := expenses + [expense];
          nextId := nextId + 1;
          response := Created(expense);
      }
    }
  }

  /** A recorded expense shows up last in the list of every member of its
      group, the payer included, and in no one else's. */
  lemma RecordedExpenseIsVisible(groups: map<nat, Group>, expenses: seq<Expense>, data: ExpenseData, id: nat, viewer: User)
    requires ValidateExpense(data).Success?
    requires data.group.id in groups && groups[data.group.id] == data.group
    ensures VisibleExpenses(groups, expenses + [Saved(data, id)], viewer) ==
      VisibleExpenses(groups, expenses, viewer) + (if viewer in data.group.members then [Saved(data, id)] else [])
    ensures viewer == data.paidBy ==>
      VisibleExpenses(groups, expenses + [Saved(data, id)], viewer) ==
      VisibleExpenses(groups, expenses, viewer) + [Saved(data, id)]
  {
    VisibleExpensesAppend(groups, expenses, Saved(data, id), viewer);
  }
}
