/** `ResultCode` and `getMessageFromCode` of lib/utils.ts. */
module ResultMessages {
  import opened Wrappers

  const ResultCodes: seq<string> := [
    "INVALID_CREDENTIALS", "INVALID_SUBMISSION", "USER_ALREADY_EXISTS",
    "UNKNOWN_ERROR", "USER_CREATED", "USER_LOGGED_IN"
  ]

  /** The user-facing message for a result code; `undefined` for any other string. */
  function GetMessageFromCode(resultCode: string): (message: Option<string>)
    ensures message.Some? <==> resultCode in ResultCodes
    ensures message.Some? ==> |message.value| > 0
  {
    match resultCode
    case "INVALID_CREDENTIALS" => Some("Invalid credentials!")
    case "INVALID_SUBMISSION" => Some("Invalid submission, please try again!")
    case "USER_ALREADY_EXISTS" => Some("User already exists, please log in!")
    case "USER_CREATED" => Some("User created, welcome!")
    case "UNKNOWN_ERROR" => Some("Something went wrong, please try again!")
    case "USER_LOGGED_IN" => Some("Logged in!")
    case _ => None
  }

  /** Different codes never share a message. */
  lemma MessagesDistinct(a: string, b: string)
    requires a in ResultCodes && b in ResultCodes && a != b
    ensures GetMessageFromCode(a) != GetMessageFromCode(b)
  {
  }
}
