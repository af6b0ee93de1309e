/** The pure parts of `callOpenAI`: the API-key shape check, the request
    contents, and the mapping from the HTTP outcome to the value returned or
    the message thrown. The network itself is a function from request to
    response supplied by the caller. */
module Completion {
  import opened Wrappers
  import Sanitizer

  const KeyPrefix: string := "sk-"
  const MinKeyLength: nat := 51

  const InvalidKeyFormat: string := "Invalid API key format. Please check your OpenAI API key."
  const UnauthorizedMessage: string := "Invalid API key. Please check your OpenAI API key and try again."
  const StatusFailurePrefix: string := "API request failed with status "

  const SystemPrefix: string := "You are a helpful assistant that improves text. Follow these instructions: "
  const UserPrefix: string := "Please improve the following text while maintaining its meaning: "

  /** The two chat messages of the request body (system, then user). */
  datatype Request = Request(system: string, user: string)

  /** What `fetch` produces: a rejection with its error message, or a response
      with its status, the `error.message` field of its JSON body when there
      is one, and the first choice's message content. */
  datatype Response =
    | NetworkError(message: string)
    | HttpResponse(status: nat, errorMessage: Option<string>, content: string)

  /** `String.prototype.startsWith`. */
  function StartsWith(s: string, prefix: string): (r: bool)
    ensures r <==> |prefix| <= |s| && s[..|prefix|] == prefix
  {
    if prefix == [] then true
    else s != [] && s[0] == prefix[0] && StartsWith(s[1..], prefix[1..])
  }

  /** The `length` of a JavaScript string: a character above U+FFFF is a
      surrogate pair, two UTF-16 code units. */
  function Utf16Length(s: string): (n: nat)
    ensures |s| <= n <= 2 * |s|
  {
    if s == [] then 0
    else Utf16Length(s[..|s| - 1]) + (if s[|s| - 1] as int >= 0x10000 then 2 else 1)
  }

  /** Code units add up over concatenation. */
  lemma {:induction false} Utf16LengthAppend(a: string, b: string)
    ensures Utf16Length(a + b) == Utf16Length(a) + Utf16Length(b)
  {
    if b != [] {
      assert (a + b)[..|a + b| - 1] == a + b[..|b| - 1];
      Utf16LengthAppend(a, b[..|b| - 1]);
    } else {
      assert a + b == a;
    }
  }

  /** A string of characters above U+FFFF has twice as many code units as
      characters; one without them has as many. */
  lemma {:induction false} Utf16LengthPlanes(s: string)
    ensures (forall i :: 0 <= i < |s| ==> s[i] as int >= 0x10000) ==> Utf16Length(s) == 2 * |s|
    ensures (forall i :: 0 <= i < |s| ==> s[i] as int < 0x10000) ==> Utf16Length(s) == |s|
  {
    if s != [] {
      var init := s[..|s| - 1];
      Utf16LengthPlanes(init);
      assert forall i :: 0 <= i < |init| ==> init[i] == s[i];
    }
  }

  /** `validateApiKey`: a non-empty key that starts with "sk-" and has at
      least 51 UTF-16 code units. The prefix is compared character by
      character: "s", "k" and "-" are single code units, and the first code
      unit of a surrogate pair is none of them. */
  function ValidateApiKey(apiKey: string): (r: bool)
    ensures r <==> && Utf16Length(apiKey) >= 51 && |apiKey| >= 3
                   && apiKey[0] == 's' && apiKey[1] == 'k' && apiKey[2] == '-'
  {
    if apiKey == "" then false
    else StartsWith(apiKey, KeyPrefix) && Utf16Length(apiKey) >= MinKeyLength
  }

  /** A key is rejected when it is short, whatever it starts with, and when it
      lacks the prefix, however long it is. */
  lemma KeyRejections(apiKey: string)
    ensures Utf16Length(apiKey) < MinKeyLength ==> !ValidateApiKey(apiKey)
    ensures |apiKey| < 26 ==> !ValidateApiKey(apiKey)
    ensures !StartsWith(apiKey, KeyPrefix) ==> !ValidateApiKey(apiKey)
    ensures !ValidateApiKey("abc")
  {
  }

  /** The length is counted in code units, not characters: "sk-" followed by
      24 characters above U+FFFF has 27 characters and 51 code units, and is
      accepted; with basic-plane characters a key needs 51 characters. */
  lemma KeyLengthInCodeUnits(tail: string)
    ensures (|tail| == 24 && forall i :: 0 <= i < |tail| ==> tail[i] as int >= 0x10000)
              ==> ValidateApiKey(KeyPrefix + tail) && |KeyPrefix + tail| == 27
    ensures (forall i :: 0 <= i < |tail| ==> tail[i] as int < 0x10000)
              ==> (ValidateApiKey(KeyPrefix + tail) <==> |tail| >= 48)
  {
    Utf16LengthAppend(KeyPrefix, tail);
    Utf16LengthPlanes(tail);
    Utf16LengthPlanes(KeyPrefix);
  }

  /** The instructions default to the empty string when falsy; the default
      agrees with sanitising the empty string. */
  function SanitizedInstructions(instructions: string): (r: string)
    ensures r == Sanitizer.Sanitize(instructions)
  {
    if instructions != "" then Sanitizer.Sanitize(instructions)
    else
      assert Sanitizer.Sanitize("") == "";
      ""
  }

  /** The two message contents of the request. */
  function BuildRequest(text: string, instructions: string): Request
  {
    Request(SystemPrefix + SanitizedInstructions(instructions), UserPrefix + Sanitizer.Sanitize(text))
  }

  /** What the request carries: each fixed prefix followed by text that holds
      no control character (so no LF or CR), has no surrounding whitespace,
      and was obtained from the caller's string by deleting characters. */
  lemma RequestContents(text: string, instructions: string)
    ensures var r := BuildRequest(text, instructions);
            && |SystemPrefix| <= |r.system| && r.system[..|SystemPrefix|] == SystemPrefix
            && |UserPrefix| <= |r.user| && r.user[..|UserPrefix|] == UserPrefix
            && Clean(r.system[|SystemPrefix|..], instructions)
            && Clean(r.user[|UserPrefix|..], text)
  {
    var r := BuildRequest(text, instructions);
    Sanitizer.SanitizeProperties(text);
    Sanitizer.SanitizeProperties(instructions);
    assert r.system[|SystemPrefix|..] == Sanitizer.Sanitize(instructions);
    assert r.user[|UserPrefix|..] == Sanitizer.Sanitize(text);
  }

  /** `t` is a sanitised form of `s`. */
  predicate Clean(t: string, s: string)
  {
    Sanitizer.IsClean(t) && Sanitizer.IsSubsequence(t, s)
  }

  /** The validation step and the request it leads to: an invalid key fails
      with the format message before any request exists. */
  function Prepare(text: string, apiKey: string, instructions: string): (r: Result<Request, string>)
    ensures r.Failure? <==> !ValidateApiKey(apiKey)
    ensures r.Failure? ==> r.error == InvalidKeyFormat
  {
    if !ValidateApiKey(apiKey) then Failure(InvalidKeyFormat)
    else Success(BuildRequest(text, instructions))
  }

  /** The digit character for a value below ten. */
  function DigitChar(d: nat): (c: char)
    requires d < 10
    ensures '0' <= c <= '9' && c as int - '0' as int == d
  {
    ('0' as int + d) as char
  }

  /** The decimal numeral of a number, as a template literal writes it. */
  function DecimalString(n: nat): (r: string)
    ensures r != []
    ensures forall i :: 0 <= i < |r| ==> '0' <= r[i] <= '9'
    ensures |r| > 1 ==> r[0] != '0'
  {
    if n < 10 then [DigitChar(n)] else DecimalString(n / 10) + [DigitChar(n % 10)]
  }

  /** The value of a string of decimal digits. */
  function DecimalValue(s: string): nat
    requires forall i :: 0 <= i < |s| ==> '0' <= s[i] <= '9'
  {
    if s == [] then 0
    else DecimalValue(s[..|s| - 1]) * 10 + (s[|s| - 1] as int - '0' as int)
  }

  /** The numeral names its number. */
  lemma {:induction false} DecimalRoundTrip(n: nat)
    ensures DecimalValue(DecimalString(n)) == n
  {
    var r := DecimalString(n);
    if n >= 10 {
      DecimalRoundTrip(n / 10);
      assert r[..|r| - 1] == DecimalString(n / 10);
    } else {
      assert r[..0] == [];
    }
  }

  /** The message thrown for a response that is not ok: the fixed message for
      401, else the body's non-empty `error.message`, else the status. */
  function FailureMessage(status: nat, errorMessage: Option<string>): string
  {
    if status == 401 then UnauthorizedMessage
    else if errorMessage.Some? && errorMessage.value != "" then errorMessage.value
    else StatusFailurePrefix + DecimalString(status)
  }

  /** `response.ok`. */
  predicate IsOk(status: nat)
  {
    200 <= status <= 299
  }

  /** What `callOpenAI` does with the outcome of `fetch`. */
  function Interpret(response: Response): Result<string, string>
  {
    match response
    case NetworkError(message) => Failure(message)
    case HttpResponse(status, errorMessage, content) =>
      if IsOk(status) then Success(content) else Failure(FailureMessage(status, errorMessage))
  }

  /** `callOpenAI(text, apiKey, instructions)` against the service `server`. */
  function CallOpenAI(text: string, apiKey: string, instructions: string, server: Request -> Response): Result<string, string>
  {
    match Prepare(text, apiKey, instructions)
    case Failure(e) => Failure(e)
    case Success(request) => Interpret(server(request))
  }

  /** An invalid key gives the format error, and the service is not consulted:
      any two services give the same outcome. */
  lemma InvalidKeySendsNothing(text: string, apiKey: string, instructions: string, server: Request -> Response, other: Request -> Response)
    requires !ValidateApiKey(apiKey)
    ensures CallOpenAI(text, apiKey, instructions, server) == Failure(InvalidKeyFormat)
    ensures CallOpenAI(text, apiKey, instructions, server) == CallOpenAI(text, apiKey, instructions, other)
  {
  }

  /** With a valid key, the outcome for each kind of response: the content on
      success; on a status that is not ok, the fixed message for 401 even when
      the body has a message, else the body's non-empty message verbatim, else
      the status message. */
  lemma ResponseClassification(text: string, apiKey: string, instructions: string, server: Request -> Response)
    requires ValidateApiKey(apiKey)
    ensures var out := CallOpenAI(text, apiKey, instructions, server);
            match server(BuildRequest(text, instructions))
            case NetworkError(m) => out == Failure(m)
            case HttpResponse(status, em, content) =>
              && (IsOk(status) ==> out == Success(content))
              && (status == 401 ==> out == Failure(UnauthorizedMessage))
              && (!IsOk(status) && status != 401 && em.Some? && em.value != "" ==> out == Failure(em.value))
              && (!IsOk(status) && status != 401 && (em.None? || em.value == "") ==>
                    out == Failure(StatusFailurePrefix + DecimalString(status)))
  {
  }

  /** The status message starts with the fixed words, and the status can be
      read back from it. */
  lemma StatusMessageNamesStatus(status: nat, errorMessage: Option<string>)
    requires status != 401 && (errorMessage.None? || errorMessage.value == "")
    ensures var m := FailureMessage(status, errorMessage);
            && |StatusFailurePrefix| < |m|
            && m[..|StatusFailurePrefix|] == StatusFailurePrefix
            && StatusOf(m) == status
  {
    var m := FailureMessage(status, errorMessage);
    assert m[|StatusFailurePrefix|..] == DecimalString(status);
    DecimalRoundTrip(status);
  }

  /** The status read back from a status failure message. */
  function StatusOf(message: string): nat
    requires |StatusFailurePrefix| <= |message|
  {
    var digits := message[|StatusFailurePrefix|..];
    if forall i :: 0 <= i < |digits| ==> '0' <= digits[i] <= '9' then DecimalValue(digits) else 0
  }
}
