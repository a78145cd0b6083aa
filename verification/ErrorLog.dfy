/** The error list that the validations and the gates of the conformance scripts append to. */
module ErrorLog {

  /** An issue, and which of the two reports it is about where that matters. */
  datatype Reported<+T> = About(role: string, issue: T) | General(issue: T)

  function Tagged<T>(role: string, issues: seq<T>): (r: seq<Reported<T>>)
    ensures |r| == |issues|
  {
    seq(|issues|, k requires 0 <= k < |issues| => About(role, issues[k]))
  }

  lemma TaggedAppend<T>(role: string, a: seq<T>, b: seq<T>)
    ensures Tagged(role, a + b) == Tagged(role, a) + Tagged(role, b)
  {}

  class ErrorList<T> {
    var items: seq<Reported<T>>

    constructor ()
      ensures items == []
    {
      items := [];
    }

    method Append(error: Reported<T>)
      modifies this
      ensures items == old(items) + [error]
    {
      items := items + [error];
    }

    /** Records issues about one of the reports. */
    method Note(role: string, issues: seq<T>)
      modifies this
      ensures items == old(items) + Tagged(role, issues)
    {
      items := items + Tagged(role, issues);
    }
  }

  /** The error list holds what was there before and the tagged issues found since. */
  ghost predicate Logged<T>(errors: ErrorList<T>, before: seq<Reported<T>>, role: string, issues: seq<T>)
    reads errors
  {
    errors.items == before + Tagged(role, issues)
  }

  method NoteInto<T>(errors: ErrorList<T>, ghost before: seq<Reported<T>>, role: string, ghost issues: seq<T>, more: seq<T>)
    requires Logged(errors, before, role, issues)
    modifies errors
    ensures Logged(errors, before, role, issues + more)
  {
    errors.Note(role, more);
    TaggedAppend(role, issues, more);
  }
}
