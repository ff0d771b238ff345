/**
 * The transaction record: its attributes, the validation rules, the
 * `Uncategorized` default category, the sign filter applied on save, and the
 * typecasts of the amount and date texts assigned to it.
 */
module Transactions {
  import opened Wrappers
  import opened Decimal
  import opened Calendar
  import Report

  datatype User = User(id: nat)
  datatype Category = Category(id: Option<nat>, name: string)

  /** The `description` column is a string(255). */
  const MaxDescriptionLength := 255
  const UncategorizedName := "Uncategorized"

  /** A transaction's attributes; `None` is Ruby's nil. Amounts are in cents. */
  datatype Record = Record(
    description: string,
    date: Option<Date>,
    amount: Option<int>,
    isDebit: Option<bool>,
    categoryId: Option<nat>,
    category: Option<Category>,
    userId: Option<nat>,
    user: Option<User>,
    skipCategoryValidation: bool)

  // ---------------------------------------------------------------- category default

  /** The category of a transaction, or a category named `Uncategorized` when it has none. */
  function CategoryOf(r: Record): (c: Category)
    ensures r.category.None? ==> c.name == UncategorizedName
    ensures r.category.Some? ==> c == r.category.value
  {
    match r.category
    case Some(c) => c
    case None => Category(None, UncategorizedName)
  }

  // ---------------------------------------------------------------- associations

  /** Each association agrees with its foreign key: a key is set exactly when the associated record has an id. */
  predicate Linked(r: Record)
  {
    r.categoryId == (if r.category.Some? then r.category.value.id else None)
    && r.userId == (if r.user.Some? then Some(r.user.value.id) else None)
  }

  /** `category = c`: the association and its key `category_id` change together. */
  function AssignCategory(r: Record, c: Option<Category>): (s: Record)
    ensures s.category == c && s.categoryId == (if c.Some? then c.value.id else None)
    ensures s.(category := r.category, categoryId := r.categoryId) == r
    ensures Linked(r) ==> Linked(s)
  {
    r.(category := c, categoryId := if c.Some? then c.value.id else None)
  }

  /** `user = u`: the association and its key `user_id` change together. */
  function AssignUser(r: Record, u: Option<User>): (s: Record)
    ensures s.user == u && s.userId == (if u.Some? then Some(u.value.id) else None)
    ensures s.(user := r.user, userId := r.userId) == r
    ensures Linked(r) ==> Linked(s)
  {
    r.(user := u, userId := if u.Some? then Some(u.value.id) else None)
  }

  /** `category_id = nil`: the association no longer matches its key and reads back as nil. */
  function ClearCategoryId(r: Record): (s: Record)
    ensures s.categoryId.None? && s.category.None?
    ensures s.(category := r.category, categoryId := r.categoryId) == r
    ensures Linked(r) ==> Linked(s)
  {
    r.(category := None, categoryId := None)
  }

  /** `user_id = nil`: the association no longer matches its key and reads back as nil. */
  function ClearUserId(r: Record): (s: Record)
    ensures s.userId.None? && s.user.None?
    ensures s.(user := r.user, userId := r.userId) == r
    ensures Linked(r) ==> Linked(s)
  {
    r.(user := None, userId := None)
  }

  // ---------------------------------------------------------------- validation

  /** The characters Ruby's `blank?` treats as white space (ASCII part). */
  predicate IsWhitespace(c: char)
  {
    c == ' ' || c == '\t' || c == '\n' || c == '\r' || c == 11 as char || c == 12 as char
  }

  /** `blank?` on a string: empty or white space only. */
  predicate IsBlank(s: string) { forall i :: 0 <= i < |s| ==> IsWhitespace(s[i]) }

  /** The validation failures a record can have, one per rule. */
  datatype Violation =
    | BlankDescription | DescriptionTooLong | MissingDate | MissingAmount | ZeroAmount
    | MissingIsDebit | MissingUserId | MissingUser | MissingCategoryId

  /** The rules a record breaks (the `errors` of `valid?`). */
  function Violations(r: Record): set<Violation>
  {
    (if IsBlank(r.description) then {BlankDescription} else {})
    + (if |r.description| > MaxDescriptionLength then {DescriptionTooLong} else {})
    + (if r.date.None? then {MissingDate} else {})
    + (if r.amount.None? then {MissingAmount} else {})
    + (if r.amount == Some(0) then {ZeroAmount} else {})
    + (if r.isDebit.None? then {MissingIsDebit} else {})
    + (if r.userId.None? then {MissingUserId} else {})
    + (if r.user.None? then {MissingUser} else {})
    + (if r.categoryId.None? && !r.skipCategoryValidation then {MissingCategoryId} else {})
  }

  /**
   * `valid?`: a record is valid exactly when its description is not blank and at most
   * 255 characters long, it has a date, a non-zero amount, a debit flag, a user
   * id and a user, and a category id unless category validation is skipped.
   */
  predicate IsValid(r: Record): (b: bool)
    ensures b <==>
      !IsBlank(r.description) && |r.description| <= MaxDescriptionLength
      && r.date.Some? && r.amount.Some? && r.amount.value != 0 && r.isDebit.Some?
      && r.userId.Some? && r.user.Some? && (r.skipCategoryValidation || r.categoryId.Some?)
  {
    ValidityRules(r);
    Violations(r) == {}
  }

  /** The violation set is empty exactly when every rule holds. */
  lemma ValidityRules(r: Record)
    ensures Violations(r) == {} <==>
      !IsBlank(r.description) && |r.description| <= MaxDescriptionLength
      && r.date.Some? && r.amount.Some? && r.amount.value != 0 && r.isDebit.Some?
      && r.userId.Some? && r.user.Some? && (r.skipCategoryValidation || r.categoryId.Some?)
  {
    if IsBlank(r.description) { assert BlankDescription in Violations(r); }
    if |r.description| > MaxDescriptionLength { assert DescriptionTooLong in Violations(r); }
    if r.date.None? { assert MissingDate in Violations(r); }
    if r.amount.None? { assert MissingAmount in Violations(r); }
    if r.amount == Some(0) { assert ZeroAmount in Violations(r); }
    if r.isDebit.None? { assert MissingIsDebit in Violations(r); }
    if r.userId.None? { assert MissingUserId in Violations(r); }
    if r.user.None? { assert MissingUser in Violations(r); }
    if r.categoryId.None? && !r.skipCategoryValidation { assert MissingCategoryId in Violations(r); }
  }

  /** With category validation skipped, clearing the category id (and so the category) does not change validity. */
  lemma SkipCategoryValidation(r: Record)
    requires r.skipCategoryValidation
    ensures IsValid(ClearCategoryId(r)) == IsValid(r)
  {
    ValidityRules(r);
    ValidityRules(ClearCategoryId(r));
  }

  // ---------------------------------------------------------------- typecasts

  /** The amount a text assigns: a decimal with at most two decimals; blank or other text assigns none. */
  function CastAmount(text: string): (a: Option<int>)
    ensures IsBlank(text) ==> a.None?
  {
    ParseCents(text)
  }

  /** The date a text assigns: "D Mon YYYY" or "DD Mon YYYY"; blank or other text assigns none. */
  function CastDate(text: string): (d: Option<Date>)
    ensures IsBlank(text) ==> d.None?
    ensures d.Some? ==> IsCalendarDate(d.value)
  {
    ParseDate(text)
  }

  /** Every amount reads back from its two-decimal text. */
  lemma CastFormattedAmount(c: int)
    ensures CastAmount(FormatCents(c)) == Some(c)
  {
    ParseFormatCents(c);
  }

  /** Every calendar date of a four-digit year reads back from its "DD Mon YYYY" text. */
  lemma CastFormattedDate(d: Date)
    requires IsCalendarDate(d) && d.year <= 9999
    ensures CastDate(FormatDate(d)) == Some(d)
  {
    ParseFormatDate(d);
  }

  // ---------------------------------------------------------------- save filter

  /** The sign filter: a debit's amount becomes negative, a credit's positive, whatever its sign was. */
  function SignedAmount(isDebit: bool, amount: int): (a: int)
    ensures a == amount || a == -amount
    ensures isDebit ==> a <= 0
    ensures !isDebit ==> a >= 0
  {
    var magnitude := if amount < 0 then -amount else amount;
    if isDebit then -magnitude else magnitude
  }

  /** The stored amount depends on the debit flag and the magnitude only, and filtering twice changes nothing. */
  lemma SignedAmountByFlagOnly(isDebit: bool, amount: int)
    ensures SignedAmount(isDebit, -amount) == SignedAmount(isDebit, amount)
    ensures SignedAmount(isDebit, SignedAmount(isDebit, amount)) == SignedAmount(isDebit, amount)
  {
  }

  /** The attributes after the save filter: the amount signed by the debit flag, all else unchanged. */
  function SaveFilter(r: Record): (s: Record)
    requires r.amount.Some? && r.isDebit.Some?
    ensures s.amount.Some? && (r.isDebit.value ==> s.amount.value <= 0) && (!r.isDebit.value ==> s.amount.value >= 0)
    ensures s.amount.value == r.amount.value || s.amount.value == -r.amount.value
    ensures s == r.(amount := s.amount)
  {
    r.(amount := Some(SignedAmount(r.isDebit.value, r.amount.value)))
  }

  /** A valid record stays valid under the save filter, and the filter is idempotent. */
  lemma SaveFilterKeepsValidity(r: Record)
    requires IsValid(r)
    ensures IsValid(SaveFilter(r))
    ensures SaveFilter(SaveFilter(r)) == SaveFilter(r)
  {
    ValidityRules(r);
    ValidityRules(SaveFilter(r));
  }

  /** The transaction as the report engine reads it from storage. */
  function AsReportTxn(r: Record): Report.Txn
    requires r.amount.Some? && r.isDebit.Some? && r.date.Some?
  {
    Report.Txn(r.amount.value, r.isDebit.value, r.date.value.year, r.date.value.month)
  }

  /** Saved transactions satisfy the sign convention the reports rely on. */
  lemma SavedRecordIsNormalized(r: Record)
    requires IsValid(r)
    ensures Report.Normalized(AsReportTxn(SaveFilter(r)))
  {
    ValidityRules(r);
  }

  /** A transaction object whose attributes are assigned and then saved. */
  class Transaction {
    var description: string
    var date: Option<Date>
    var amount: Option<int>
    var isDebit: Option<bool>
    var categoryId: Option<nat>
    var category: Option<Category>
    var userId: Option<nat>
    var user: Option<User>
    var skipCategoryValidation: bool

    /** A built, not yet saved, transaction with the given attributes. */
    constructor (r: Record)
      ensures Attributes() == r
    {
      description, date, amount, isDebit := r.description, r.date, r.amount, r.isDebit;
      categoryId, category, userId, user := r.categoryId, r.category, r.userId, r.user;
      skipCategoryValidation := r.skipCategoryValidation;
    }

    function Attributes(): Record
      reads this
    {
      Record(description, date, amount, isDebit, categoryId, category, userId, user, skipCategoryValidation)
    }

    /** Assigns an amount given as text, as `transaction.amount = "23.45"` does. */
    method AssignAmount(text: string)
      modifies this
      ensures Attributes() == old(Attributes()).(amount := CastAmount(text))
    {
      amount := CastAmount(text);
    }

    /** Assigns a date given as text, as `transaction.date = '11 Apr 2012'` does. */
    method AssignDate(text: string)
      modifies this
      ensures Attributes() == old(Attributes()).(date := CastDate(text))
    {
      date := CastDate(text);
    }

    /**
     * Saves the transaction: a record that fails validation is not saved and
     * keeps its attributes; a valid one gets its amount signed by the debit flag.
     */
    method Save() returns (saved: bool)
      modifies this
      ensures saved == IsValid(old(Attributes()))
      ensures saved ==> old(Attributes()).amount.Some? && old(Attributes()).isDebit.Some?
                        && Attributes() == SaveFilter(old(Attributes())) && IsValid(Attributes())
      ensures !saved ==> Attributes() == old(Attributes())
    {
      var r := Attributes();
      saved := IsValid(r);
      if saved {
        ValidityRules(r);
        SaveFilterKeepsValidity(r);
        amount := Some(SignedAmount(isDebit.value, amount.value));
      }
    }
  }
}
