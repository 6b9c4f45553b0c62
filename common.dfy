/** Shared vocabulary of the back-office model: failure-compatible wrappers,
    primary keys, calendar dates and the errors the write gates raise. */
module Common {

  datatype Option<+T> = None | Some(value: T)

  /** The value if present, else the default (a request key falling back to the field default). */
  function OrElse<T>(o: Option<T>, d: T): T {
    match o
    case None => d
    case Some(v) => v
  }

  /** A value or the error that aborted the operation. */
  datatype Result<+T, +E> = Ok(value: T) | Err(error: E)

  /** Success with no value, or the error that aborted the operation. */
  datatype Outcome<+E> = Pass | Fail(error: E)

  /** Database primary keys are auto-incremented from 1, so 0 is free to be
      used as the "no contract" sentinel. */
  type Pk = n: nat | n >= 1 witness 1

  /** A calendar date as a (year, month, day) triple; compared lexicographically. */
  datatype Date = Date(year: nat, month: nat, day: nat)

  datatype DateTime = DateTime(date: Date, hour: nat, minute: nat)

  predicate DateLe(a: Date, b: Date) {
    || a.year < b.year
    || (a.year == b.year && a.month < b.month)
    || (a.year == b.year && a.month == b.month && a.day <= b.day)
  }

  /** Why a validation gate refused a write. */
  datatype Violation =
    | InvalidShareholder            // percent_validator: value outside 0..100
    | SerialNumberLengthNotValid    // POS.clean
    | InvalidSerialNumberLength     // the POS views' own length check
    | BankNameNotLegalName          // Costumer.clean
    | BlankField(field: string)     // a required character field left empty
    | InvalidChoice(field: string)  // a value outside the field's choices
    | Required(field: string)       // a required field missing from the request
    | PasswordTooShort              // fewer than 6 characters
    | UsernameTaken                 // the username uniqueness validator
    | UnknownReference(field: string)

  datatype Error =
    | ValidationError(violations: seq<Violation>)
    | NotFound                      // a looked-up primary key does not exist (404)
    | ValueError                    // create_user without a username
    | IntegrityError                // a database constraint refused the row
    | AuthenticationFailed
}
