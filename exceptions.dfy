/** RequestBodyValidationException: one message built from the binding errors
    of a request body. */
module Exceptions {
  import opened Wrappers
  import opened Text

  /** Spring's ObjectError: a FieldError names the rejected field; the default
      message may be null. */
  datatype ObjectError =
    | FieldError(field: string, defaultMessage: Option<string>)
    | GlobalError(defaultMessage: Option<string>)

  /** One error's part of the message: "field message. " for a field error,
      " message. " otherwise. */
  function Fragment(e: ObjectError): (r: string)
    ensures |r| >= 3 && r[|r| - 2..] == ". "
    ensures e.FieldError? ==> |r| == |e.field| + |Render(e.defaultMessage)| + 3
                              && r[..|e.field|] == e.field && r[|e.field|] == ' '
    ensures e.GlobalError? ==> r[0] == ' ' && |r| == |Render(e.defaultMessage)| + 3
    ensures e.FieldError? ==> r[|e.field| + 1..|r| - 2] == Render(e.defaultMessage)
    ensures e.GlobalError? ==> r[1..|r| - 2] == Render(e.defaultMessage)
  {
    match e
    case FieldError(field, message) => field + " " + Render(message) + ". "
    case GlobalError(message) => " " + Render(message) + ". "
  }

  /** The whole message: the fragments of all errors, in order. */
  function Messages(errors: seq<ObjectError>): string
  {
    if errors == [] then "" else Fragment(errors[0]) + Messages(errors[1..])
  }

  /** The message of a concatenated error list is the concatenation of the messages. */
  lemma {:induction false} MessagesAppend(a: seq<ObjectError>, b: seq<ObjectError>)
    ensures Messages(a + b) == Messages(a) + Messages(b)
  {
    if a == [] {
      assert a + b == b;
    } else {
      assert (a + b)[1..] == a[1..] + b;
      MessagesAppend(a[1..], b);
    }
  }

  /** No errors, no message; any error contributes a non-empty fragment. */
  lemma {:induction false} MessagesEmptyIff(errors: seq<ObjectError>)
    ensures Messages(errors) == "" <==> errors == []
  {
    if errors != [] {
      assert |Messages(errors)| >= |Fragment(errors[0])|;
    }
  }

  class RequestBodyValidationException {
    const messages: string
    /** The errors the exception was built from (not kept by the Java class). */
    ghost const listErrors: seq<ObjectError>

    ghost predicate Valid()
      reads this
    {
      messages == Messages(listErrors)
    }

    /** The constructor's StringBuilder loop: append each error's fragment, in order. */
    constructor (listErrors: seq<ObjectError>)
      ensures Valid() && this.listErrors == listErrors
    {
      var sb := "";
      for i := 0 to |listErrors|
        invariant sb == Messages(listErrors[..i])
      {
        var error := listErrors[i];
        var appended: string;
        if error.FieldError? {
          appended := error.field + " " + Render(error.defaultMessage) + ". ";
        } else {
          appended := " " + Render(error.defaultMessage) + ". ";
        }
        assert listErrors[..i + 1] == listErrors[..i] + [error];
        MessagesAppend(listErrors[..i], [error]);
        assert Messages([error]) == appended;
        sb := sb + appended;
      }
      assert listErrors[..|listErrors|] == listErrors;
      messages := sb;
      this.listErrors := listErrors;
    }

    /** getMessages: the message built from the constructor's error list. */
    function GetMessages(): (r: string)
      reads this
      requires Valid()
      ensures r == Messages(listErrors)
    {
      messages
    }
  }
}
