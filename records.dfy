/** The record model shared by every part of the reconciler, and the ways the
    core can fail. */
module Records {

  datatype Option<+T> = None | Some(value: T)

  /** One failure of the core; the comment on each names the Python exception
      that dodns.py raises in that situation. */
  datatype Error =
    | MissingKey(key: string)       // KeyError: a placeholder with no option of that name
    | BadBrace                      // ValueError: a lone '{' or '}' in a row
    | DomainOptionClash             // TypeError: an option is itself called "domain"
    | MissingField                  // IndexError: the row has too few space-separated fields
    | BadPriority(text: string)     // ValueError: the MX priority is not an integer
    | UnknownType(rtype: string)    // ValueError: a record type that is not in ORDER
    | NotInList                     // ValueError: list.remove of an element already removed

  /** A value or the error that stopped the computation; usable with `:-`. */
  datatype Result<+T> = Ok(value: T) | Err(error: Error) {
    predicate IsFailure() {
      Err?
    }

    function PropagateFailure<U>(): Result<U>
      requires Err?
    {
      Err(error)
    }

    function Extract(): T
      requires Ok?
    {
      value
    }
  }

  /** One DNS record: the fields of the provider's record object that the
      reconciler reads.  `priority` is Python's None when absent. */
  datatype Record = Record(
    domainName: string,
    rtype: string,
    name: string,
    data: string,
    priority: Option<int>)
}
