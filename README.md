# PublishThis endpoint — a Dafny model

This project models the publishing endpoint of the PublishThis Drupal module
(`Publishthis_Endpoint` in `classes/class-endpoint.php`). The endpoint takes one
JSON request naming an action (`verify`, `publish` or `getCategories`), runs
the matching handler and answers with exactly one JSON envelope:
`{success, errorMessage, ...}`.

Files:

- `json_escape.dfy` (module `JsonEscape`): `escapeJsonString` as pure
  functions. `ReplaceAll` is PHP's `str_replace` for one search string. It
  scans left to right, replaces non-overlapping occurrences and never rescans
  the text it inserts. `ReplaceEach` is the array form: the pairs are applied in
  order, each to the previous result. `EscapeChars` is a per-character reference
  table for the first pass. `JsonDecodeChars` is a JSON string-content reader
  (section 9 of ECMA-404). It is used to state what a reader gets who takes
  the escaped text as JSON string content. The client itself receives the escaped text
  verbatim, because `json_encode` escapes it once more.
- `options.dfy` (module `Options`): the `Option` type, for request fields and
  settings that may be missing and for a decode that may fail.
- `envelope.dfy` (module `Envelope`): JSON values and the two envelopes that
  `sendFailure` and `sendSuccess` build. An `Answer` says which of the two a
  handler sends, and `Render` gives its envelope.
- `endpoint.dfy` (module `Endpoint`): the class `PublishthisEndpoint`. It has
  three fields:
  - `responseData`, the source's `response_data`;
  - `sent`, the envelopes written;
  - `trace`, the log entries and publish calls.

  Its methods follow the source's handlers step by step, including the
  `foreach` loops of `sendSuccess` and `actionGetCategories`. Each method is
  proved against a function of its inputs and the old state: `VerifyReply`,
  `PublishReply`, and `Serve` for the whole request.
- `endpoint_properties.dfy` (module `EndpointProperties`): the dispatcher's
  promises, proved about `Serve`.

The foreign code the class calls is passed in as a `Services` value, and the
`curated_publish` setting as a parameter. `Services` holds:
- the API token;
- whether client info came back;
- the publish outcome, or the exception message it throws;
- the taxonomy tree for a vocabulary name, or the exception message the lookup throws.

Behaviour of the code worth knowing:

- The first escaping pass maps backspace to `\f` and form feed to `\b`. That is
  the reverse of the JSON escapes. `EscapeCharsDecode` proves that a reader of
  the escaped text as JSON string content gets the input back with those two
  characters exchanged, for every input that holds no other raw control
  character.
- The escaped text is not always valid JSON string content. Control characters
  other than newline, carriage return, tab, backspace and form feed are left raw
  (`OtherControlKept`). The second pass also puts bare quotes back.
- `sendSuccess` ignores its message, so "published" and "categories fetched"
  never reach the client.
- `response_data` is a field of the object, so it outlives a single request if
  the object is reused (`CategoriesCarryOver`).
- PHP's `empty()` treats the token `"0"` as missing, and treats only a feed id
  of 0 as empty. A negative feed id is published.

## Model

| member | source | states |
|---|---|---|
| `JsonEscape.EscapeJsonString` | classes/class-endpoint.php:30-38 | The two str_replace passes, one after the other. Its properties are stated by `NoRawControl`, `CleanUnchanged`, `ControlAlwaysChanged`, `OtherControlKept`, `SimpleObjectUnchanged` and `PairObjectUnchanged`. |
| `JsonEscape.ReplaceAll` | classes/class-endpoint.php:33 | str_replace for one search string. Its properties are stated by `ReplaceAllAbsent`, `SkipPrefix`, `MatchHere` and `NoMatchStep`. |
| `JsonEscape.ReplaceEach` | classes/class-endpoint.php:36 | str_replace with arrays, the pairs applied in order. Its properties are stated by `EscapePassIsPerChar` and `CollapseSteps`. |
| `JsonEscape.EscapePassIsPerChar` | classes/class-endpoint.php:31-33 | The first str_replace pass equals a per-character table. Backslash is replaced first, so backslashes inserted later are not doubled, and no replacement is rescanned. |
| `JsonEscape.BackspaceFormFeedSwapped` | classes/class-endpoint.php:31-33 | Backspace becomes the two characters `\f` and form feed becomes `\b`. A newline becomes exactly `\n`, with its backslash not doubled. |
| `JsonEscape.EscapeCharsDecode` | classes/class-endpoint.php:31-33 | Reading the first pass's output as JSON string content gives the input with backspace and form feed exchanged. This holds for every input with no other raw control character. |
| `JsonEscape.OtherControlKept` | classes/class-endpoint.php:31-36 | A control character outside the five (here U+0001) passes through raw, so the output is not valid JSON string content. |
| `JsonEscape.NoRawControl` | classes/class-endpoint.php:31-36 | The output of escapeJsonString never holds a raw newline, carriage return, tab, backspace or form feed. |
| `JsonEscape.CleanUnchanged` | classes/class-endpoint.php:31-36 | A string with none of the eight escaped characters comes back unchanged. |
| `JsonEscape.ControlAlwaysChanged` | classes/class-endpoint.php:31-36 | A string that holds one of the five raw control characters is always changed. |
| `JsonEscape.SimpleObjectUnchanged` | classes/class-endpoint.php:34-36 | The second pass undoes quote escaping around `":"`, `{"` and `"}`. So `{"k":"v"}` with plain key and value survives escaping unchanged. |
| `JsonEscape.PairObjectUnchanged` | classes/class-endpoint.php:34-36 | The second pass also undoes the escaping of `","` between members. So the two-member object `{"k1":"v1","k2":"v2"}` with plain keys and values survives escaping unchanged. |
| `JsonEscape.SimpleObjectExample` | classes/class-endpoint.php:30-38 | escapeJsonString(`{"a":"b"}`) is `{"a":"b"}`. |
| `JsonEscape.ReplaceAllAbsent` | classes/class-endpoint.php:33 | str_replace leaves its subject unchanged when a character of the search string never occurs in it. |
| `Envelope.FailureEnvelope` | classes/class-endpoint.php:43-51 | The object sendFailure builds. Its properties are stated by `FailureShape` and `EnvelopesDistinct`. |
| `Envelope.SuccessEnvelope` | classes/class-endpoint.php:56-68 | The object sendSuccess builds. Its properties are stated by `SuccessShape` and `EnvelopesDistinct`. |
| `Envelope.Render` | classes/class-endpoint.php:43-68 | The envelope of a handler's answer: sendFailure's for a failure, sendSuccess's for a success. `ServeShape` states that every rendered answer of a request is well formed. |
| `Envelope.FailureShape` | classes/class-endpoint.php:43-51 | A failure envelope has exactly the properties `success` = false and `errorMessage`, the message escaped, and it is well formed. |
| `Envelope.SuccessShape` | classes/class-endpoint.php:56-68 | A success envelope has `success` = true and `errorMessage` = null. It also holds exactly the response-data entries, unescaped, and it is well formed. |
| `Envelope.EnvelopesDistinct` | classes/class-endpoint.php:43-68 | No failure envelope equals a success envelope. |
| `Endpoint.CategoryItems` | classes/class-endpoint.php:172-175 | There is one category per tree node. |
| `Endpoint.PublishthisEndpoint.constructor` | classes/class-endpoint.php:19-25 | A new endpoint has empty response data, nothing sent and nothing logged. |
| `Endpoint.PublishthisEndpoint.SendFailure` | classes/class-endpoint.php:43-51 | Appends exactly the failure envelope for the message and changes nothing else. |
| `Endpoint.PublishthisEndpoint.SendSuccess` | classes/class-endpoint.php:56-68 | The loop copies every response-data entry. It appends exactly the success envelope of the current response data, whatever the message. |
| `Endpoint.PublishthisEndpoint.ActionVerify` | classes/class-endpoint.php:81-120 | Adds the log entry and the envelope that `VerifyReply` gives for the token and client info. The response data is unchanged. |
| `Endpoint.PublishthisEndpoint.ActionPublish` | classes/class-endpoint.php:135-159 | Adds the publish call and the envelope that `PublishReply` gives. The engine's exception is caught. |
| `Endpoint.PublishthisEndpoint.ActionGetCategories` | classes/class-endpoint.php:165-178 | The loop appends the tree's categories in order to the `categories` entry. A lookup exception is returned untouched. |
| `Endpoint.PublishthisEndpoint.ProcessRequest` | classes/class-endpoint.php:183-234 | The new trace, the one new envelope and the new response data are those of `Serve`. The response data never shadows `success` or `errorMessage`. |
| `Endpoint.VerifyReply` | classes/class-endpoint.php:81-120 | actionVerify as a function of the token and client info. Its branches are stated by `VerifyBranches`, and `ActionVerify` is proved against it. |
| `Endpoint.PublishReply` | classes/class-endpoint.php:135-159 | actionPublish as a function of the feed id and the engine's outcome. Its branches are stated by `PublishBranches` and `PublishThrowsClean`, and `ActionPublish` is proved against it. |
| `Endpoint.Serve` | classes/class-endpoint.php:183-234 | process_request as a function of the request, the setting and the services. Its properties are stated by `ServeShape`, `UnknownActionFails`, `PublishGate`, `PublishOnlyWhenAllowed`, `CategoriesInOrder`, `CategoriesLookupThrows` and `CategoriesCarryOver`, and `ProcessRequest` is proved against it. |
| `EndpointProperties.ServeShape` | classes/class-endpoint.php:186-231 | Every request logs its raw body once, at level 2, before anything else. It yields exactly one envelope, and that envelope is well formed. A failure envelope has no payload. |
| `EndpointProperties.UnknownActionFails` | classes/class-endpoint.php:222-224 | An action other than the three, or a missing one, gives failure "Empty or bad request made to endpoint". Only the request is logged. |
| `EndpointProperties.PublishGate` | classes/class-endpoint.php:199-203 | publish with the setting not equal to `publishthis_import_from_manager` gives failure "Publishing through CMS is disabled". No publish call is made. |
| `EndpointProperties.PublishBranches` | classes/class-endpoint.php:135-158 | Feed id 0 gives "Empty feed id" and no call. Any other id is published once with `[feedId]`. The result is then failure with the exception's message, or success. |
| `EndpointProperties.PublishOnlyWhenAllowed` | classes/class-endpoint.php:199-205 | The publishing engine is called at most once. It is called exactly when the action is publish, publishing is enabled and the feed id is not 0. |
| `EndpointProperties.VerifyBranches` | classes/class-endpoint.php:81-119 | An empty token gives "No API Key Entered". Empty client info gives "API Key Entered is not Valid". Each failure logs one level-1 entry. Otherwise the result is success with one level-2 entry. |
| `EndpointProperties.CategoryItemsAt` | classes/class-endpoint.php:172-175 | The i-th category is the id and name of the i-th tree node. |
| `EndpointProperties.CategoriesInOrder` | classes/class-endpoint.php:165-219 | getCategories succeeds. Its `categories` entry is reset and then holds exactly the tree's (id, name) pairs in tree order. Other entries are kept, and no entry besides `categories` is added. |
| `EndpointProperties.CategoriesLookupThrows` | classes/class-endpoint.php:214-231 | If the taxonomy lookup throws, the exception becomes one failure carrying its message. `categories` stays empty. |
| `EndpointProperties.CategoriesCarryOver` | classes/class-endpoint.php:56-65 | A successful verify on the same object after getCategories carries the same categories. |
| `EndpointProperties.PublishThrowsClean` | classes/class-endpoint.php:147-155 | When the engine throws a message with nothing to escape, such as "disk full", the envelope is exactly `{success: false, errorMessage: <that message>}`. |
| `EndpointProperties.CategoriesExample` | classes/class-endpoint.php:172-175 | The tree [(1, "A"), (2, "B")] gives the categories `[{"id":1,"name":"A"},{"id":2,"name":"B"}]`. |

## Left out

- sendJSON: the content-type header, the `echo` and `json_encode` are output I/O. The model stops at the envelope value, so the second, json_encode-level escaping and the order of properties in the output are not modelled.
- Reading `php://input` and `json_decode`: the request arrives already parsed, as an optional action string and an optional feed id. `intval`'s parsing of numeric strings is not modelled; a missing feed id reads as 0. Non-string JSON values for `action` are not modelled either. PHP's loose `switch` comparison would route some of them.
- The internals of the PublishThis API client, the publishing engine and Drupal's taxonomy functions are foreign code. They appear only as the values in `Services`. The constructor's creation of those collaborator objects is not modelled.
- Exceptions from `_get_token`, `get_client_info` and `_log_message` are not modelled. In the model, the one exception that escapes a handler is the taxonomy lookup's. It reaches the top-level catch exactly as any other would.
- Log details: the `date()` timestamps depend on the clock. Only the level, message and status of the verify entries are kept. The request entry keeps the raw body.
- PHP's creation of an object from `null` on property assignment is not modelled. The envelope is a map from property name to JSON value.
- The `if( false )` "getCategories not supported" branch is dead code. The commented-out lookup of the taxonomy group is not code either.
- The global `$pt_settings_value` is the `curatedPublish` parameter. Its absence is `None`, which disables publishing.
- Term ids are integers here. Drupal hands them over from the database and may give strings.
- PHP strings are bytes, and `str_replace` works byte by byte. The model's `string` is a sequence of Unicode characters. Every search string of escapeJsonString is ASCII, so the two agree on UTF-8 text. Byte strings that are not valid UTF-8 cannot be written in the model.
- JsonDecodeChars does not read `\u` escapes. The first pass never produces them.
