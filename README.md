# htop-tools in Dafny

htop-tools is a plugin for an AI chat gateway that offers system monitoring and small text and password
utilities in two ways:

- **The `/tools` chat command.** It takes free text such as `/tools top 5`, `/tools md5 hello`,
  `/tools encrypt some text -p secret`, or nothing for help.
  - It replies with the help text, with a usage or "unknown command" message, or with the operation's
    result.
  - The result is cut to 2000 characters and wrapped in a Markdown code fence.
- **The `system_tools` agent tool.** It takes a structured `{command, input, limit, password}`
  parameter object and returns the operation's result, uncut, as the one text item of its content.

Both dispatch on the same operation names onto the same helper functions:

- process listings (`top`, `mem`);
- the port listing with its fallbacks, and disk, memory, load and network reports;
- MD5/SHA-1/SHA-256 digests, base64 and URL codecs;
- random passwords and UUIDs;
- in chat only, AES-256-CBC encryption and decryption with a password.

## How the model is built

Each module follows one part of `index.ts`:

| module | file | what it holds |
|---|---|---|
| `Wrappers` | `wrappers.dfy` | `Option` |
| `Runtime` | `runtime.dfy` | `Env`: one fixed behaviour of everything the plugin borrows from its host (see below); `Outcome` (a value, or a thrown exception); `RandomBytes` |
| `JsText` | `js_text.dfy` | JavaScript's `trim`, `split(/\s+/)`, `toLowerCase`, `split(":")`, with JavaScript's white-space set |
| `JsNumber` | `js_number.dfy` | `parseInt(s, 10)` and `String(n)` over `Number`, either NaN or an integer |
| `Operations` | `operations.dfy` | the operation names, the matching of a word against the case labels (`ParseOp`), and what each shared operation computes |
| `SystemInfo` | `system_info.dfy` | the process-listing commands and `getPorts` |
| `ToolFunctions` | `tool_functions.dfy` | `urlDecode`, `generatePassword`, the hex wire format of `aesEncrypt`, and `aesDecrypt` |
| `PluginConfig` | `plugin_config.dfy` | how `enabled` and `topLimit` are resolved |
| `FlagPattern` | `flag_pattern.dfy` | the regular expression `kw\s+(.+?)\s+-p\s+(.+)` that `encrypt` and `decrypt` use, as a backtracking matcher with the engine's priorities, plus a declarative description of a match |
| `ChatCommand` | `chat_command.dfy` | the chat handler, as functions (`ChatReply`, `OpStep`) and as methods proved equal to them (`Handle`, `Switch` and its section methods) |
| `ChatProperties` | `chat_properties.dfy` | what the chat command replies, stated for the shapes of text a user types |
| `AgentTool` | `agent_tool.dfy` | the agent tool's `execute` |
| `ToolAgreement` | `tool_agreement.dfy` | where the chat command and the tool agree, and where they differ |

`Env` has one field for each of these:

- the shell (`exec`, whose failure text starts with `"Error: "`);
- the three digests;
- the base64 and percent codecs (`decodeURIComponent` may fail);
- the stream of random bytes;
- `randomUUID`;
- `scryptSync` with the fixed salt;
- AES encipher and decipher.

Every property is stated for an arbitrary `Env`. The model therefore covers all the plugin's own
logic, but nothing about what these libraries compute.

### Behaviours the model makes explicit

- **The chat operation word is case-insensitive, but the `encrypt`/`decrypt` pattern is not.**
  - `ENCRYPT x -p y` selects the `encrypt` case, because the word is lowercased.
  - Its regular expression then looks for the lowercase keyword in the original text. Unless the
    lowercase keyword occurs later in the text, the reply is the usage message (`UpperCaseEncrypt`,
    `CaseSensitiveKeyword`). For `ENCRYPT a encrypt b -p c`, the pattern matches at the lowercase
    `encrypt`, and `b` is encrypted under `c`.
  - The tool's command is matched exactly, with no lowercasing (`UpperCaseCommand`).
- **The tool has no `encrypt` or `decrypt` case.** Those commands answer `Unknown command: …`
  (`NoEncryptTool`). The declared `password` parameter is never read (`ParamsRead`).
- **A limit of 0 is treated differently.**
  - In chat, `top 0` asks `head` for 1 line, the header alone.
  - The tool's `limit || topLimit` treats 0 as absent and falls back to `topLimit` (`LimitAgrees`).
  - A configured `topLimit` of 0 is kept, since `??` only replaces an absent value (`ZeroLimitKept`).
- **The chat command and the tool compute an operand differently.**
  - The chat command hashes the trimmed rest of the line.
  - The tool hashes its `input` exactly as given (`TextAgrees`).
  - `unbase64` and `urldecode` in chat decode only the second word (`WordOperand`).
- **`aesDecrypt` reads only the first two `:`-separated segments** (`ExtraSegmentsIgnored`). Its
  format check rejects exactly the payloads listed in `FormatCheckCases`.
- **`passwd` with a negative or non-numeric length throws, because `randomBytes` does.**
  - Chat: `passwd -1` or `passwd x` (`PasswdOperand`).
  - Tool: a negative `limit` (`PasswdLength`).
  - The model represents the throw as `Outcome.Threw`.
- **The chat handler's `rest` variable (`index.ts:345`) is computed but never used.** The model leaves
  it out.

## Model

| member | source | states |
|---|---|---|
| Runtime.RandomBytes | index.ts:62 | `randomBytes(n)` yields exactly `n` bytes, byte `i` being the host's `i`-th random byte |
| JsText.Trim | index.ts:341 | the result has no white space at either end; it is empty exactly when the input is blank; already-trimmed text is unchanged |
| JsText.TrimSurrounded | index.ts:341 | trimming blank text around a trimmed, non-empty text gives back that text |
| JsText.SplitWs | index.ts:342 | the split gives at least one piece; no piece holds white space; the first piece is the text up to the first white space |
| JsText.SplitJoinWords | index.ts:342 | splitting non-empty words joined by single spaces gives the words back |
| JsText.SplitTrimmedWords | index.ts:341-342 | every piece of a trimmed, non-empty text is non-empty |
| JsText.SplitWordGap | index.ts:342-344 | a word, a white-space gap and a text split into the word followed by the pieces of the text |
| JsText.SecondPiece | index.ts:344 | when there is a second piece, it is the word that starts after the first run of white space |
| JsText.ToLowerAscii | index.ts:343 | lowercasing keeps the length and lowercases each character |
| JsText.Utf16Length | index.ts:472 | JavaScript's `length` counts one or two UTF-16 code units per character, so it lies between the number of characters and twice that |
| JsText.BmpLength | index.ts:472 | for text of the Basic Multilingual Plane, the length in code units is the number of characters |
| JsText.PrefixWithin | index.ts:473 | the kept front part fits in the budget of code units, and one more character would not fit |
| JsText.SplitOn | index.ts:92 | `split(":")` gives at least one piece; no piece holds a colon; the pieces joined by colons give the input back |
| JsText.SplitJoinOn | index.ts:92 | splitting colon-free pieces joined by colons gives the pieces back |
| JsNumber.ParseInt | index.ts:387 | `parseInt(s, 10)` is a number exactly when, after leading white space, a digit follows, or a sign and then a digit; `ParsePrefix` and `ParseSignedPrefix` give its value |
| JsNumber.ParsePrefix | index.ts:442 | after leading white space, `parseInt` reads the run of digits up to the first non-digit as its decimal value and ignores the rest |
| JsNumber.ParseSignedPrefix | index.ts:387 | the same after one sign: `-` negates the value of the digits, `+` keeps it |
| JsNumber.ParseFraction | index.ts:442 | `parseInt("12.5", 10)` is 12 |
| JsNumber.ParseUnit | index.ts:387 | `parseInt(" -7px", 10)` is -7 |
| JsNumber.ShowNat | index.ts:387 | `String(n)` is a non-empty run of decimal digits whose value is `n` |
| JsNumber.ParseShow | index.ts:387 | `parseInt(String(n), 10) == n` for every integer |
| JsNumber.ParseDigits | index.ts:442 | a non-empty run of digits parses to its decimal value |
| Operations.ParseOp | index.ts:384-467 | a selected case's label equals the word |
| Operations.UnknownIffUnlabelled | index.ts:466-467 | `default` is taken exactly for the words that are no case label |
| Operations.ParseName | index.ts:384-465 | every case label selects its own case |
| Operations.NamesDistinct | index.ts:386-457 | no two cases share a label |
| Operations.NameIsLowerCase | index.ts:521-569 | no case label contains an upper-case letter |
| SystemInfo.TopCommand | index.ts:106-110 | the CPU listing is the `ps` command sorted by CPU and piped to `head` with a count; `HeadCountIsLimitPlusOne` states the count |
| SystemInfo.MemCommand | index.ts:113-116 | the memory listing is the `ps` command sorted by memory and piped to `head` with a count; `HeadCountIsLimitPlusOne` states the count |
| SystemInfo.HeadCountIsLimitPlusOne | index.ts:106-116 | for an integer limit, both listing commands ask `head` for a count that reads back as `limit + 1`; they differ only in the sort key |
| SystemInfo.NaNLimit | index.ts:108-114 | a NaN limit reaches `head` as the text `NaN` |
| SystemInfo.PortOutputs | index.ts:121-128 | output `i` is what the `i`-th of the three port listings prints, in the order they are tried |
| SystemInfo.GetPorts | index.ts:119-134 | the result is the first output that neither starts with `Error` nor is blank; the fixed error text is returned exactly when no such output exists |
| SystemInfo.FirstUsable | index.ts:127-133 | the result is the fixed error text, or one of the outputs that is usable; `FirstUsableIsFirst` states which one |
| SystemInfo.FirstUsableIsFirst | index.ts:127-133 | a usable output is found exactly when one exists, and it is the earliest one |
| SystemInfo.ErrorTextUnusable | index.ts:133 | the fallback error text is itself not a usable listing |
| ToolFunctions.UrlDecode | index.ts:51-57 | the result is the decoded text, or the fixed error text when decoding fails |
| ToolFunctions.GeneratePassword | index.ts:60-68 | the call succeeds exactly for a non-negative integer length; the password has that length; character `i` is the alphabet character selected by random byte `i` modulo 70 |
| ToolFunctions.PasswordFromAlphabet | index.ts:61-67 | each password character is from the 70-character alphabet; the password has one character per byte; no bytes give the empty password |
| ToolFunctions.Hex | index.ts:83 | hex encoding gives two lowercase hex digits per byte |
| ToolFunctions.HexHasNoColon | index.ts:83 | hex text holds no colon, so the separator of the wire format is unambiguous |
| ToolFunctions.HexToBytes | index.ts:95 | `Buffer.from(ivHex, "hex")` decodes at most one byte per two characters; `HexRoundTrip` states that it inverts the hex encoding |
| ToolFunctions.HexRoundTrip | index.ts:83-97 | decoding the hex of a byte string gives the bytes back |
| ToolFunctions.AesDecrypt | index.ts:90-103 | a payload that fails the format check gives the format error before any key is derived |
| ToolFunctions.SegmentReachesDecipher | index.ts:92-102 | for a well-formed payload, only the IV segment is hex-decoded, and the ciphertext segment reaches the decipher unchanged, whatever its length; the reply is the decipher's text or its error message after `Error: ` |
| ToolFunctions.FormatCheckCases | index.ts:92-93 | the check fails exactly for a payload with no colon, one starting with a colon, or one whose second segment is empty |
| ToolFunctions.ExtraSegmentsIgnored | index.ts:92 | text after a second colon does not change the decryption |
| ToolFunctions.EncryptWith | index.ts:78-83 | the encrypted text is the 32 hex digits of the IV, a colon, then the hex of the ciphertext |
| ToolFunctions.AesEncrypt | index.ts:76-87 | the encrypted text always passes the decrypting side's format check, and it decrypts to the text under the same password whenever the cipher inverts |
| ToolFunctions.WireFormat | index.ts:79-83 | the encrypted text splits on `:` into exactly the 32 hex digits of the IV and the non-empty hex of the ciphertext, so the format check passes |
| ToolFunctions.AesRoundTrip | index.ts:76-103 | decrypting what was encrypted under the same password gives the text back, whenever the decipher, given the hex of the ciphertext, inverts the encipher under that key and IV |
| PluginConfig.Resolve | index.ts:159-161 | the plugin is enabled unless `enabled` is explicitly `false`; `topLimit` is the configured value when present, else 10 |
| PluginConfig.ZeroLimitKept | index.ts:161 | a configured `topLimit` of 0 is kept; only an absent value or absent configuration gives 10 |
| FlagPattern.LineEnd | index.ts:450 | `.` runs to the next line terminator |
| FlagPattern.MatchAt | index.ts:450 | a match attempted at a position starts there |
| FlagPattern.SearchFrom | index.ts:450 | a match found from a position starts at or after it |
| FlagPattern.Find | index.ts:450 | a match found by `match` fits the pattern, with greedy gaps and a greedy password; `FindIsTheMatch` states that it is the first one |
| FlagPattern.Groups | index.ts:450-451 | the groups are `null` exactly when `match` finds nothing; both groups are non-empty and hold no line terminator |
| FlagPattern.MatchAtSound | index.ts:450 | a match attempted at a position fits the pattern there and has greedy `\s+` gaps and a greedy password |
| FlagPattern.MatchAtFirst | index.ts:450 | whenever some match starts at a position, the attempt there succeeds with the engine's preferred match (longest first gap, shortest text, then longest gap before `-p`) |
| FlagPattern.SearchFromSound | index.ts:450 | the searched match fits the pattern |
| FlagPattern.SearchFromFirst | index.ts:450 | the search finds a match at the leftmost start that has one, preferred as above |
| FlagPattern.FindIsTheMatch | index.ts:450-451 | `match` succeeds exactly when the pattern fits somewhere, and then returns the leftmost match with the engine's preferences |
| FlagPattern.GroupsAreTheMatch | index.ts:450-454 | there are no groups exactly when nothing fits; otherwise the two groups are the text and password of that leftmost match |
| FlagPattern.ExampleGroups | index.ts:450 | `encrypt hello world -p secret` captures `hello world` and `secret` |
| ChatCommand.OpStep | index.ts:384-468 | every reply the `switch` returns before running an operation is an error message starting with a cross |
| ChatCommand.StepThrows | index.ts:384-468 | the `switch` throws exactly for `passwd` with a length `randomBytes` rejects |
| ChatCommand.Truncate | index.ts:471-474 | a result of up to 2000 UTF-16 code units is unchanged; a longer one keeps the longest front part within 2000 code units, followed by the truncation marker |
| ChatCommand.BmpTruncate | index.ts:471-474 | for text of the Basic Multilingual Plane, a result of up to 2000 characters is unchanged and a longer one keeps exactly its first 2000 characters |
| ChatCommand.Fence | index.ts:476 | the result is placed, unchanged, between an opening and a closing code fence |
| ChatCommand.Switch | index.ts:384-468 | the method's reply is the case `OpStep` describes |
| ChatCommand.MonitorCase | index.ts:386-406 | the method's reply is the case `OpStep` describes |
| ChatCommand.HashCase | index.ts:409-420 | the method's reply is the case `OpStep` describes |
| ChatCommand.CodecCase | index.ts:423-438 | the method's reply is the case `OpStep` describes |
| ChatCommand.PasswordCase | index.ts:441-446 | the method's reply is the case `OpStep` describes |
| ChatCommand.CipherCase | index.ts:449-464 | the method's reply is the case `OpStep` describes |
| ChatCommand.ChatReply | index.ts:340-477 | the handler throws exactly for `passwd` with a length `randomBytes` rejects; the replies of the other operations are stated by the `ChatProperties` lemmas (`ReportReply`, `UuidReply`, `RestOperand`, `LimitOperand`, `EncryptReply` and the others in that module) |
| ChatCommand.Handle | index.ts:340-477 | the handler's reply is `ChatReply`, whose reply for each operation the `ChatProperties` lemmas state |
| ChatProperties.TrimCommand | index.ts:341 | trimming command text removes exactly the leading and trailing blanks |
| ChatProperties.ParseWithOperand | index.ts:341-344 | for a word followed by an operand: the operation is the lowercased word; `arg1` is the operand's first word; the trimmed rest after the word is the operand |
| ChatProperties.ParseBare | index.ts:341-344 | for a word alone, the operation is the lowercased word and there is no `arg1` |
| ChatProperties.ParseFirstWord | index.ts:341-343 | the operation is the lowercased first word, whatever follows it |
| ChatProperties.HelpIffBlank | index.ts:341-380 | the help text is the reply exactly when the argument text is absent or blank |
| ChatProperties.StepIsNotHelp | index.ts:384-476 | no operation's reply equals the help text |
| ChatProperties.UnknownOperation | index.ts:466-467 | a first word that lowercases to no label gets the "unknown command" reply naming it in lower case |
| ChatProperties.BareUsage | index.ts:409-464 | an operation that needs an operand, given none, gets its usage reply |
| ChatProperties.NoArgUsage | index.ts:409-438 | a text operation with no second word gets its usage reply |
| ChatProperties.NoMatchUsage | index.ts:449-464 | `encrypt`/`decrypt` text that the pattern does not match gets the usage reply |
| ChatProperties.BareDefaults | index.ts:386-443 | `top`/`mem` alone list `topLimit` processes; `passwd` alone gives a 16-character password |
| ChatProperties.NoArgDefaults | index.ts:386-443 | the same defaults, for any argument text without a second word |
| ChatProperties.ParseSixteen | index.ts:442 | the default `"16"` parses to 16 |
| ChatProperties.RestOperand | index.ts:409-434 | the digests, `base64` and `urlencode` act on all the text after the operation's word, trimmed, and the reply is its fenced, truncated result |
| ChatProperties.RestReply | index.ts:409-434 | the same, for any argument text whose trimmed rest is the operand |
| ChatProperties.WordOperand | index.ts:427-438 | `unbase64` and `urldecode` act on the second word alone |
| ChatProperties.ArgReply | index.ts:386-443 | with a second word, `top`/`mem` use its parsed value and `passwd` uses its parsed length |
| ChatProperties.LimitOperand | index.ts:386-391 | `top n`/`mem n` list by `parseInt(n)`, the first word of the operand |
| ChatProperties.PasswdOperand | index.ts:441-443 | `passwd n` gives a password of length `parseInt(n)` when that is a non-negative integer, and throws otherwise |
| ChatProperties.ReportReply | index.ts:392-406 | `port`, `disk`, `memory`, `load` and `net` reply with their report, cut to the length limit and fenced, whatever follows the word |
| ChatProperties.StepReport | index.ts:392-406 | the `switch` case of a report outputs that report |
| ChatProperties.UuidReply | index.ts:444-446 | `uuid` replies with a fresh UUID, cut and fenced, whatever follows the word |
| ChatProperties.StepUuid | index.ts:444-446 | the `switch` case of `uuid` outputs a fresh UUID |
| ChatProperties.OperandIgnored | index.ts:392-446 | the reports and `uuid` reply the same whatever follows the operation's word |
| ChatProperties.EncryptReply | index.ts:449-456 | a matched `encrypt` replies with the encryption of the matched text under the matched password |
| ChatProperties.DecryptReply | index.ts:457-464 | a matched `decrypt` replies with the decryption of the matched text under the matched password |
| ChatProperties.MatchNeedsSpace | index.ts:450 | the pattern never matches text without white space |
| ChatProperties.MatchNeedsKeyword | index.ts:450 | the pattern matches only text that contains the keyword |
| ChatProperties.KeywordInTrimmed | index.ts:450 | a keyword found in the trimmed text occurs in the raw text |
| ChatProperties.CaseSensitiveKeyword | index.ts:449-464 | when the lowercase keyword does not occur in the text, `encrypt`/`decrypt` reply with the usage message, even though the word selected the case |
| ChatProperties.UpperCaseEncrypt | index.ts:449-453 | `ENCRYPT …` (with no `n` after the word) selects `encrypt` but always gets the usage reply |
| AgentTool.OrLimit | index.ts:523 | the `limit` fallback is `d` for an absent or zero limit, else the limit |
| AgentTool.ToolResult | index.ts:521-572 | the tool throws exactly for `passwd` with a negative effective length |
| AgentTool.ToolCase | index.ts:521-572 | the case taken for an operation throws exactly for `passwd` with a negative effective length; `CaseLimit`, `CaseText`, `CasePasswd`, `CaseUnknown`, `ToolReport` and `ToolUuid` state each case's result |
| AgentTool.ToolReply | index.ts:574-576 | the response holds exactly one text item, the result |
| AgentTool.Execute | index.ts:511-577 | the method's response is `ToolReply` |
| AgentTool.UnlistedCommand | index.ts:570-571 | a command that is no case label gives `Unknown command: ` followed by the command |
| AgentTool.NoEncryptTool | index.ts:521-572 | `encrypt` and `decrypt` are unknown commands to the tool |
| AgentTool.UpperCaseCommand | index.ts:521-571 | a command containing an upper-case letter is unknown |
| AgentTool.ProcessLimit | index.ts:522-527 | `top`/`mem` list `limit` processes, or `topLimit` when the limit is absent or zero |
| AgentTool.PasswdLength | index.ts:564-566 | `passwd` gives 16 characters for an absent or zero limit, `limit` characters for a positive one, and throws for a negative one |
| AgentTool.ToolReport | index.ts:528-542 | the tool's `port`, `disk`, `memory`, `load` and `net` give their report whatever the input and limit |
| AgentTool.ToolUuid | index.ts:567-569 | the tool's `uuid` gives a fresh UUID whatever the input and limit |
| AgentTool.TextInput | index.ts:543-563 | the text operations act on `input` exactly as given, and reply `Error: input required` when it is absent or empty |
| AgentTool.ParamsRead | index.ts:512-572 | `password` is never read; `input` is read only by the text operations; `limit` only by `top`, `mem` and `passwd` |
| ToolAgreement.TextAgrees | index.ts:543-563 | for the operations that take the whole operand, the chat reply is the fenced, truncated tool result on the same text |
| ToolAgreement.ReportAgrees | index.ts:528-569 | for the reports and `uuid`, the chat reply is the fenced, truncated tool result |
| ToolAgreement.LimitAgrees | index.ts:522-527 | `top n` in chat lists `n` processes, for every integer `n`; the tool with limit `n` does too, except for `n = 0`, where it lists `topLimit` |

## Left out

- Shell execution, hashing, base64, percent coding, scrypt, AES, UUID generation and the random source
  are fields of `Env`. What they compute is not modelled, and neither is the 30-second command timeout
  (`index.ts:8-14`).
- Strings are sequences of Unicode code points: a Dafny character is never half of a surrogate pair.
  Where the source compares a length (`index.ts:472`), the model counts UTF-16 code units with
  `Utf16Length`. `toLowerCase` is modelled for ASCII letters only.
- Truncate: when the 2000th UTF-16 code unit is the first half of a surrogate pair, JavaScript's
  `slice` keeps that lone half, which a Dafny string cannot hold. The model keeps the text only up to
  the character before it. For text of the Basic Multilingual Plane the cut is exact (`BmpTruncate`).
- JavaScript numbers are modelled as exact integers or NaN. Fractions, infinities and `-0` are not
  modelled. Nor is the rounding of doubles beyond 2^53, or `String`'s exponent form from 1e21 on.
  The tool's `limit` is declared `integer` and is modelled as one.
- ShowNat: JavaScript's `String(n)` agrees with these digits only for n < 1e21, where it switches to
  exponent form, and `n` is exact only below 2^53.
- ParseShow: holds of JavaScript only for |n| < 2^53. For example, `parseInt(String(1e21), 10)` is 1,
  so a configured `topLimit` of 1e21 lists a single process.
- ParseDigits: JavaScript rounds the value of a digit run beyond 2^53 to the nearest double.
- ParsePrefix: the same rounding beyond 2^53 applies to the digits it reads.
- ParseSignedPrefix: the same rounding applies, and JavaScript's `parseInt("-0", 10)` is `-0`, which the model writes 0.
- HeadCountIsLimitPlusOne: in JavaScript, `limit + 1` is exact only for |limit| < 2^53, and its text
  is all digits only below 1e21. For example, `top 9007199254740993` builds `head -9007199254740992`
  in JavaScript, and `top 1000000000000000000000` builds `head -1e+21`.
- `randomBytes` rejects sizes above its maximum buffer length. The model accepts every non-negative
  size.
- The `catch` branches of `base64Decode` (`index.ts:40-41`) and of `aesEncrypt` (`index.ts:84-86`)
  are not modelled. The host's base64 decoder and encipher are treated as total. For `aesDecrypt`,
  the decipher is given the ciphertext segment as hex text, as `update` receives it. Its failure is
  modelled as an error message (`index.ts:100-102`). That failure covers an invalid IV, ciphertext
  hex of odd length and bad padding. Which inputs fail is the host's: no property of the model
  depends on it.
- `AesEncrypt` draws its IV from the same byte stream that `generatePassword` draws from. The model
  does not relate successive calls: each call sees the stream from its start.
- ToolFunctions.AesDecrypt: its contract states only the format-check path. The decipher path is
  stated by `SegmentReachesDecipher`, `AesRoundTrip` and `ExtraSegmentsIgnored`.
- The CLI adapter (`index.ts:163-332`) is not part of this model. Neither are plugin registration,
  logging, the disabled-plugin early return and the asynchronous wrapper.
- The help text is kept as its lines joined by newlines. It is compared only as a whole.
- The tool's declared parameter schema (`index.ts:485-510`) is not enforced by the handler. The model
  accepts any command string, as the handler does.
