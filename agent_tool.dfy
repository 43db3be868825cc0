/**
 * The `system_tools` agent tool: a command name, an optional input text and
 * an optional limit select one operation; its result, untruncated, is the
 * text of the one content item returned. Unlike the chat command, the
 * command name is matched exactly, and `encrypt` and `decrypt` have no case.
 */
module AgentTool {
  import opened Wrappers
  import opened JsText
  import opened JsNumber
  import opened Runtime
  import opened ToolFunctions
  import opened SystemInfo
  import opened Operations

  /** The tool's parameters; `password` is declared but no case reads it. */
  datatype Params = Params(command: string, input: Option<string>, limit: Option<int>, password: Option<string>)

  /** One text item of the returned content. */
  datatype TextItem = TextItem(text: string)

  datatype ToolResponse = ToolResponse(content: seq<TextItem>)

  const InputRequired := "Error: input required"

  const UnknownCommandPrefix := "Unknown command: "

  /** The operations the tool's `switch` has a case for. */
  predicate IsToolCase(op: Op) {
    !op.Unknown? && !op.Encrypt? && !op.Decrypt?
  }

  /** `limit || d`: an absent or zero limit falls back on `d`. */
  function OrLimit(limit: Option<int>, d: int): (r: int)
    ensures limit.None? || limit.value == 0 ==> r == d
    ensures limit.Some? && limit.value != 0 ==> r == limit.value
  {
    if limit.None? || limit.value == 0 then d else limit.value
  }

  /** JavaScript truthiness of an optional string: present and not empty. */
  predicate Truthy(input: Option<string>) {
    input.Some? && input.value != ""
  }

  /**
   * What the `switch` of `execute` leaves in `result`, or that it throws;
   * only `passwd` can throw, and it does exactly for a negative length.
   */
  function ToolResult(h: Env, topLimit: int, p: Params): (r: Outcome<string>)
    ensures r.Threw? <==> ParseOp(p.command) == Passwd && OrLimit(p.limit, 16) < 0
  {
    ToolCase(h, topLimit, ParseOp(p.command), p)
  }

  /** The case `op` of the `switch`. */
  function ToolCase(h: Env, topLimit: int, op: Op, p: Params): (r: Outcome<string>)
    ensures r.Threw? <==> op == Passwd && OrLimit(p.limit, 16) < 0
  {
    match op
    case Top => Done(ProcessList(h, op, Int(OrLimit(p.limit, topLimit))))
    case Mem => Done(ProcessList(h, op, Int(OrLimit(p.limit, topLimit))))
    case Port => Done(Report(h, op))
    case Disk => Done(Report(h, op))
    case Memory => Done(Report(h, op))
    case Load => Done(Report(h, op))
    case Net => Done(Report(h, op))
    case Md5 => Done(if Truthy(p.input) then Transform(h, op, p.input.value) else InputRequired)
    case Sha1 => Done(if Truthy(p.input) then Transform(h, op, p.input.value) else InputRequired)
    case Sha256 => Done(if Truthy(p.input) then Transform(h, op, p.input.value) else InputRequired)
    case Base64 => Done(if Truthy(p.input) then Transform(h, op, p.input.value) else InputRequired)
    case Unbase64 => Done(if Truthy(p.input) then Transform(h, op, p.input.value) else InputRequired)
    case UrlEncode => Done(if Truthy(p.input) then Transform(h, op, p.input.value) else InputRequired)
    case UrlDecode => Done(if Truthy(p.input) then Transform(h, op, p.input.value) else InputRequired)
    case Passwd => PasswordOutcome(h, Int(OrLimit(p.limit, 16)))
    case Uuid => Done(h.uuid)
    case Encrypt => Done(UnknownCommandPrefix + p.command)
    case Decrypt => Done(UnknownCommandPrefix + p.command)
    case Unknown => Done(UnknownCommandPrefix + p.command)
  }

  /** What `execute` resolves to: the result as the one text item, or that it throws. */
  function ToolReply(h: Env, topLimit: int, p: Params): (r: Outcome<ToolResponse>)
    ensures r.Done? <==> ToolResult(h, topLimit, p).Done?
    ensures r.Done? ==> |r.value.content| == 1 && r.value.content[0].text == ToolResult(h, topLimit, p).value
  {
    match ToolResult(h, topLimit, p)
    case Done(result) => Done(ToolResponse([TextItem(result)]))
    case Threw => Threw
  }

  /** `execute(_id, params)`. */
  method Execute(h: Env, topLimit: int, p: Params) returns (r: Outcome<ToolResponse>)
    ensures r == ToolReply(h, topLimit, p)
  {
    var input, limit := p.input, p.limit;
    var result := "";
    match ParseOp(p.command) {
      case Top => result := TopProcesses(h, Int(OrLimit(limit, topLimit)));
      case Mem => result := TopMemoryProcesses(h, Int(OrLimit(limit, topLimit)));
      case Port => result := GetPorts(h);
      case Disk => result := h.exec(DiskCommand);
      case Memory => result := h.exec(MemoryCommand);
      case Load => result := h.exec(LoadCommand);
      case Net => result := h.exec(NetCommand);
      case Md5 => result := if Truthy(input) then h.md5(input.value) else InputRequired;
      case Sha1 => result := if Truthy(input) then h.sha1(input.value) else InputRequired;
      case Sha256 => result := if Truthy(input) then h.sha256(input.value) else InputRequired;
      case Base64 => result := if Truthy(input) then h.base64Encode(input.value) else InputRequired;
      case Unbase64 => result := if Truthy(input) then h.base64Decode(input.value) else InputRequired;
      case UrlEncode => result := if Truthy(input) then h.urlEncode(input.value) else InputRequired;
      case UrlDecode => result := if Truthy(input) then ToolFunctions.UrlDecode(h, input.value) else InputRequired;
      case Passwd =>
        var password := GeneratePassword(h, Int(OrLimit(limit, 16)));
        if password.Threw? {
          return Threw;
        }
        result := password.value;
      case Uuid => result := h.uuid;
      case Encrypt => result := UnknownCommandPrefix + p.command;
      case Decrypt => result := UnknownCommandPrefix + p.command;
      case Unknown => result := UnknownCommandPrefix + p.command;
    }
    return Done(ToolResponse([TextItem(result)]));
  }

  /** A command that names no case of the tool is reported as unknown, with the command echoed. */
  lemma UnlistedCommand(h: Env, topLimit: int, p: Params)
    requires forall op: Op :: IsToolCase(op) ==> Name(op) != p.command
    ensures ToolResult(h, topLimit, p) == Done(UnknownCommandPrefix + p.command)
  {
    CaseUnknown(h, topLimit, ParseOp(p.command), p);
  }

  lemma CaseUnknown(h: Env, topLimit: int, op: Op, p: Params)
    requires !IsToolCase(op)
    ensures ToolCase(h, topLimit, op, p) == Done(UnknownCommandPrefix + p.command)
  {
  }

  /** The tool's `port`, `disk`, `memory`, `load` and `net` give the report, whatever the input and limit. */
  lemma ToolReport(h: Env, topLimit: int, p: Params, op: Op)
    requires IsReport(op) && p.command == Name(op)
    ensures ToolResult(h, topLimit, p) == Done(Report(h, op))
  {
    ParseName(op);
  }

  /** The tool's `uuid` gives a fresh UUID, whatever the input and limit. */
  lemma ToolUuid(h: Env, topLimit: int, p: Params)
    requires p.command == Name(Uuid)
    ensures ToolResult(h, topLimit, p) == Done(h.uuid)
  {
    ParseName(Uuid);
  }

  /** `encrypt` and `decrypt` are no cases of the tool, whatever the password. */
  lemma NoEncryptTool(h: Env, topLimit: int, p: Params, op: Op)
    requires (op == Encrypt || op == Decrypt) && p.command == Name(op)
    ensures ToolResult(h, topLimit, p) == Done(UnknownCommandPrefix + p.command)
  {
    ParseName(op);
    CaseUnknown(h, topLimit, op, p);
  }

  /** The command is matched exactly: one with an upper-case letter is unknown. */
  lemma UpperCaseCommand(h: Env, topLimit: int, p: Params, x: nat)
    requires x < |p.command| && 'A' <= p.command[x] <= 'Z'
    ensures ToolResult(h, topLimit, p) == Done(UnknownCommandPrefix + p.command)
  {
    NameIsLowerCase(ParseOp(p.command));
    CaseUnknown(h, topLimit, ParseOp(p.command), p);
  }

  /**
   * `top` and `mem` list `limit` processes, falling back on the configured
   * limit when `limit` is absent or zero.
   */
  lemma ProcessLimit(h: Env, topLimit: int, p: Params, op: Op)
    requires (op == Top || op == Mem) && p.command == Name(op)
    ensures p.limit.None? || p.limit == Some(0) ==> ToolResult(h, topLimit, p) == Done(ProcessList(h, op, Int(topLimit)))
    ensures p.limit.Some? && p.limit.value != 0 ==> ToolResult(h, topLimit, p) == Done(ProcessList(h, op, Int(p.limit.value)))
  {
    ParseName(op);
    CaseLimit(h, topLimit, op, p);
  }

  lemma CaseLimit(h: Env, topLimit: int, op: Op, p: Params)
    requires op == Top || op == Mem
    ensures ToolCase(h, topLimit, op, p) == Done(ProcessList(h, op, Int(OrLimit(p.limit, topLimit))))
  {
  }

  /**
   * `passwd` makes a password of `limit` characters, of 16 when `limit` is
   * absent or zero, and throws for a negative `limit`.
   */
  lemma PasswdLength(h: Env, topLimit: int, p: Params)
    requires ParseOp(p.command) == Passwd
    ensures p.limit.None? || p.limit == Some(0) ==> ToolResult(h, topLimit, p) == Done(Password(RandomBytes(h, 16)))
    ensures p.limit.Some? && p.limit.value > 0 ==>
      ToolResult(h, topLimit, p) == Done(Password(RandomBytes(h, p.limit.value))) && |ToolResult(h, topLimit, p).value| == p.limit.value
    ensures p.limit.Some? && p.limit.value < 0 ==> ToolResult(h, topLimit, p) == Threw
  {
    CasePasswd(h, topLimit, p);
  }

  lemma CasePasswd(h: Env, topLimit: int, p: Params)
    ensures p.limit.None? || p.limit == Some(0) ==> ToolCase(h, topLimit, Passwd, p) == Done(Password(RandomBytes(h, 16)))
    ensures p.limit.Some? && p.limit.value > 0 ==>
      ToolCase(h, topLimit, Passwd, p) == Done(Password(RandomBytes(h, p.limit.value))) && |ToolCase(h, topLimit, Passwd, p).value| == p.limit.value
    ensures p.limit.Some? && p.limit.value < 0 ==> ToolCase(h, topLimit, Passwd, p) == Threw
  {
    if p.limit.Some? && p.limit.value > 0 {
      PasswordFromAlphabet(RandomBytes(h, p.limit.value));
    }
  }

  /**
   * A text operation transforms `input` as given, untrimmed; an absent or
   * empty input gets the error text instead.
   */
  lemma TextInput(h: Env, topLimit: int, p: Params, op: Op)
    requires IsTextOp(op) && p.command == Name(op)
    ensures !Truthy(p.input) ==> ToolResult(h, topLimit, p) == Done(InputRequired)
    ensures Truthy(p.input) ==> ToolResult(h, topLimit, p) == Done(Transform(h, op, p.input.value))
  {
    ParseName(op);
    CaseText(h, topLimit, op, p);
  }

  lemma CaseText(h: Env, topLimit: int, op: Op, p: Params)
    requires IsTextOp(op)
    ensures ToolCase(h, topLimit, op, p) == Done(if Truthy(p.input) then Transform(h, op, p.input.value) else InputRequired)
  {
  }

  /**
   * `password` is read by no case; `input` only by the text operations and
   * `limit` only by `top`, `mem` and `passwd`.
   */
  lemma ParamsRead(h: Env, topLimit: int, p: Params, q: Params)
    requires p.command == q.command
    ensures p.input == q.input && p.limit == q.limit ==> ToolResult(h, topLimit, p) == ToolResult(h, topLimit, q)
    ensures !IsTextOp(ParseOp(p.command)) && p.limit == q.limit ==> ToolResult(h, topLimit, p) == ToolResult(h, topLimit, q)
    ensures var op := ParseOp(p.command);
      op != Top && op != Mem && op != Passwd && p.input == q.input ==> ToolResult(h, topLimit, p) == ToolResult(h, topLimit, q)
  {
    CaseParamsRead(h, topLimit, ParseOp(p.command), p, q);
  }

  lemma CaseParamsRead(h: Env, topLimit: int, op: Op, p: Params, q: Params)
    requires p.command == q.command
    ensures p.input == q.input && p.limit == q.limit ==> ToolCase(h, topLimit, op, p) == ToolCase(h, topLimit, op, q)
    ensures !IsTextOp(op) && p.limit == q.limit ==> ToolCase(h, topLimit, op, p) == ToolCase(h, topLimit, op, q)
    ensures op != Top && op != Mem && op != Passwd && p.input == q.input ==> ToolCase(h, topLimit, op, p) == ToolCase(h, topLimit, op, q)
  {
  }
}
