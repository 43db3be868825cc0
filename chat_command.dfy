/**
 * The `/tools` chat command: the free-text argument is trimmed and split on
 * white space, its first word (lowercased) selects the operation, and the
 * operand is recovered in one of three ways. Early replies (help, usage,
 * unknown operation) go out as they are; every other result is cut to 2000
 * characters and wrapped in a Markdown code fence.
 */
module ChatCommand {
  import opened Wrappers
  import opened JsText
  import opened JsNumber
  import opened Runtime
  import opened FlagPattern
  import opened ToolFunctions
  import opened SystemInfo
  import opened Operations

  /** Results longer than this are cut. */
  const MaxLen := 2000

  /** What replaces the part of a result beyond `MaxLen`. */
  const Marker := "\n... (已截断)"

  const HelpText := "🔧" + HelpBody

  /** The lines of the help text after its leading emoji. */
  const HelpLines := [
    " HTOP Tools 使用帮助：",
    "",
    "系统监控:",
    "  /tools top [n]     - CPU 占用最高的进程",
    "  /tools mem [n]     - 内存占用最高的进程  ",
    "  /tools port        - 查看开放端口",
    "  /tools disk        - 磁盘使用情况",
    "  /tools memory      - 内存使用情况",
    "  /tools load        - 系统负载",
    "  /tools net         - 网络连接统计",
    "",
    "哈希/编码:",
    "  /tools md5 <text>       - MD5 哈希",
    "  /tools sha1 <text>      - SHA1 哈希",
    "  /tools sha256 <text>    - SHA256 哈希",
    "  /tools base64 <text>    - Base64 编码",
    "  /tools unbase64 <text>  - Base64 解码",
    "  /tools urlencode <text> - URL 编码",
    "  /tools urldecode <text> - URL 解码",
    "",
    "密码工具:",
    "  /tools passwd [len]     - 生成随机密码",
    "  /tools uuid             - 生成 UUID",
    "  /tools encrypt <text> -p <password>  - AES 加密",
    "  /tools decrypt <text> -p <password>  - AES 解密",
    "",
    "示例:",
    "  /tools md5 hello",
    "  /tools passwd 20",
    "  /tools top 5"]

  const HelpBody := JoinOn(HelpLines, '\n')

  const UsagePrefix := "❌ 用法: /tools "

  /** The usage reply of an operation that needs an operand. */
  function UsageText(op: string): string {
    UsagePrefix + op + " <text>"
  }

  /** The usage reply of `encrypt` and `decrypt`. */
  function MatchUsageText(op: string): string {
    UsagePrefix + op + " <text> -p <password>"
  }

  const UnknownPrefix := "❌ 未知命令: "

  function UnknownText(op: string): string {
    UnknownPrefix + op + "\n输入 /tools 查看帮助"
  }

  /** Text operations whose operand is all the text after the operation's word. */
  predicate TakesRest(op: Op) {
    op.Md5? || op.Sha1? || op.Sha256? || op.Base64? || op.UrlEncode?
  }

  /** Text operations whose operand is the second word alone. */
  predicate TakesWord(op: Op) {
    op.Unbase64? || op.UrlDecode?
  }

  /** `ctx.args?.trim() || ""`. */
  function Args(rawArgs: Option<string>): string {
    if rawArgs.Some? then Trim(rawArgs.value) else ""
  }

  /** `parts[0].toLowerCase()`: the operation. */
  function SubCmd(args: string): (op: string)
    ensures |op| <= |args|
  {
    ToLowerAscii(SplitWs(args)[0])
  }

  /** `parts[1]`, absent when there is no second piece. */
  function Arg1(args: string): Option<string> {
    var parts := SplitWs(args);
    if |parts| > 1 then Some(parts[1]) else None
  }

  /** JavaScript falsiness of an optional string: absent or empty. */
  predicate Falsy(a: Option<string>) {
    a.None? || a.value == ""
  }

  /** `a || d`. */
  function OrElse(a: Option<string>, d: string): string {
    if Falsy(a) then d else a.value
  }

  /** How the `switch` ends: an early reply, a result to cut and fence, or an exception. */
  datatype Step = Early(text: string) | Output(result: string) | Throw

  /** The `switch` of the handler on the trimmed argument text. */
  function Dispatch(h: Env, topLimit: int, args: string): Step {
    var word := SubCmd(args);
    if word == "" then Early(HelpText) else OpStep(h, topLimit, ParseOp(word), word, args)
  }

  /**
   * The case `op` of the `switch`, `word` being the lowercased first word of
   * `args`; every reply it gives before running an operation is an error
   * message, marked with a cross.
   */
  function OpStep(h: Env, topLimit: int, op: Op, word: string, args: string): (step: Step)
    requires |word| <= |args|
    ensures step.Early? ==> |step.text| > 0 && step.text[0] == '❌'
  {
    var arg1 := Arg1(args);
    match op
    case Top => Output(ProcessList(h, op, ParseInt(OrElse(arg1, ShowInt(topLimit)))))
    case Mem => Output(ProcessList(h, op, ParseInt(OrElse(arg1, ShowInt(topLimit)))))
    case Port => Output(Report(h, op))
    case Disk => Output(Report(h, op))
    case Memory => Output(Report(h, op))
    case Load => Output(Report(h, op))
    case Net => Output(Report(h, op))
    case Md5 => if Falsy(arg1) then Early(UsageText(Name(op))) else Output(Transform(h, op, Trim(args[|word|..])))
    case Sha1 => if Falsy(arg1) then Early(UsageText(Name(op))) else Output(Transform(h, op, Trim(args[|word|..])))
    case Sha256 => if Falsy(arg1) then Early(UsageText(Name(op))) else Output(Transform(h, op, Trim(args[|word|..])))
    case Base64 => if Falsy(arg1) then Early(UsageText(Name(op))) else Output(Transform(h, op, Trim(args[|word|..])))
    case Unbase64 => if Falsy(arg1) then Early(UsageText(Name(op))) else Output(Transform(h, op, arg1.value))
    case UrlEncode => if Falsy(arg1) then Early(UsageText(Name(op))) else Output(Transform(h, op, Trim(args[|word|..])))
    case UrlDecode => if Falsy(arg1) then Early(UsageText(Name(op))) else Output(Transform(h, op, arg1.value))
    case Passwd =>
      (match PasswordOutcome(h, ParseInt(OrElse(arg1, "16")))
       case Done(pw) => Output(pw)
       case Threw => Throw)
    case Uuid => Output(h.uuid)
    case Encrypt =>
      (match Groups(args, Name(op))
       case None => Early(MatchUsageText(Name(op)))
       case Some(g) => Output(AesEncrypt(h, g.0, g.1)))
    case Decrypt =>
      (match Groups(args, Name(op))
       case None => Early(MatchUsageText(Name(op)))
       case Some(g) => Output(AesDecrypt(h, g.0, g.1)))
    case Unknown => Early(UnknownText(word))
  }

  /** The `switch` throws only for `passwd`, when `randomBytes` rejects its length. */
  lemma StepThrows(h: Env, topLimit: int, op: Op, word: string, args: string)
    requires |word| <= |args|
    ensures OpStep(h, topLimit, op, word, args).Throw? <==> op == Passwd && !SizeAccepted(ParseInt(OrElse(Arg1(args), "16")))
  {
  }

  /**
   * A result longer than `MaxLen` UTF-16 code units is cut to the longest
   * front part within `MaxLen` units, followed by the marker.
   */
  function Truncate(result: string): (r: string)
    ensures Utf16Length(result) <= MaxLen ==> r == result
    ensures MaxLen < Utf16Length(result) ==>
      |Marker| <= |r| && r[|r| - |Marker|..] == Marker &&
      var n := |r| - |Marker|;
      n < |result| && r[..n] == result[..n] && Utf16Length(result[..n]) <= MaxLen < Utf16Length(result[..n + 1])
  {
    if Utf16Length(result) > MaxLen then
      assert result[..|result|] == result;
      result[..PrefixWithin(result, MaxLen, 0)] + Marker
    else result
  }

  /** For text of the Basic Multilingual Plane the cut keeps exactly the first `MaxLen` characters. */
  lemma BmpTruncate(result: string)
    requires InBmp(result)
    ensures |result| <= MaxLen ==> Truncate(result) == result
    ensures |result| > MaxLen ==> Truncate(result) == result[..MaxLen] + Marker
  {
    BmpLength(result);
    if |result| > MaxLen {
      var r := Truncate(result);
      var n := |r| - |Marker|;
      assert InBmp(result[..n]) && InBmp(result[..n + 1]);
      BmpLength(result[..n]);
      BmpLength(result[..n + 1]);
      assert n == MaxLen;
      assert r == result[..MaxLen] + r[n..];
    }
  }

  /** A result inside a Markdown code fence: the result sits between the opening and closing fence lines. */
  function Fence(result: string): (r: string)
    ensures |r| == |result| + 8
    ensures r[..4] == "```\n" && r[4..|r| - 4] == result && r[|r| - 4..] == "\n```"
  {
    "```\n" + result + "\n```"
  }

  /** The reply a step of the `switch` ends in: early replies as they are, results cut and fenced. */
  function Finish(step: Step): Outcome<string> {
    match step
    case Early(text) => Done(text)
    case Output(result) => Done(Fence(Truncate(result)))
    case Throw => Threw
  }

  /**
   * The handler's reply text, or that it throws: only `passwd` throws, when
   * its length is not a size `randomBytes` accepts.
   */
  function ChatReply(h: Env, topLimit: int, rawArgs: Option<string>): (r: Outcome<string>)
    ensures r.Threw? <==> var args := Args(rawArgs);
      ParseOp(SubCmd(args)) == Passwd && !SizeAccepted(ParseInt(OrElse(Arg1(args), "16")))
  {
    var args := Args(rawArgs);
    var word := SubCmd(args);
    if word == "" then
      assert Name(Passwd) != word;
      Finish(Dispatch(h, topLimit, args))
    else
      assert Dispatch(h, topLimit, args) == OpStep(h, topLimit, ParseOp(word), word, args);
      StepThrows(h, topLimit, ParseOp(word), word, args);
      Finish(Dispatch(h, topLimit, args))
  }

  /**
   * The `switch` of the handler for the operation `op`, read from the first
   * word `subCmd` of `args`, as statements with early returns. `OpStep` is
   * its specification: the properties of the command are proved about that
   * function, and this method and its sections are proved to compute it.
   */
  method Switch(h: Env, topLimit: int, op: Op, subCmd: string, args: string) returns (step: Step)
    requires |subCmd| <= |args|
    ensures step == OpStep(h, topLimit, op, subCmd, args)
  {
    if op == Top || op == Mem || IsReport(op) {
      step := MonitorCase(h, topLimit, op, subCmd, args);
    } else if op == Md5 || op == Sha1 || op == Sha256 {
      step := HashCase(h, topLimit, op, subCmd, args);
    } else if IsTextOp(op) {
      step := CodecCase(h, topLimit, op, subCmd, args);
    } else if op == Unknown {
      step := Early(UnknownText(subCmd));
    } else if op == Passwd || op == Uuid {
      step := PasswordCase(h, topLimit, op, subCmd, args);
    } else {
      step := CipherCase(h, topLimit, op, subCmd, args);
    }
  }

  /** The system-monitoring cases of the `switch`. */
  method MonitorCase(h: Env, topLimit: int, op: Op, subCmd: string, args: string) returns (step: Step)
    requires |subCmd| <= |args| && (op == Top || op == Mem || IsReport(op))
    ensures step == OpStep(h, topLimit, op, subCmd, args)
  {
    var arg1 := Arg1(args);
    if op == Top {
      step := Output(TopProcesses(h, ParseInt(OrElse(arg1, ShowInt(topLimit)))));
    } else if op == Mem {
      step := Output(TopMemoryProcesses(h, ParseInt(OrElse(arg1, ShowInt(topLimit)))));
    } else if op == Port {
      var ports := GetPorts(h);
      step := Output(ports);
    } else if op == Disk {
      step := Output(h.exec(DiskCommand));
    } else if op == Memory {
      step := Output(h.exec(MemoryCommand));
    } else if op == Load {
      step := Output(h.exec(LoadCommand));
    } else {
      step := Output(h.exec(NetCommand));
    }
  }

  /** The hashing cases of the `switch`. */
  method HashCase(h: Env, topLimit: int, op: Op, subCmd: string, args: string) returns (step: Step)
    requires |subCmd| <= |args| && (op == Md5 || op == Sha1 || op == Sha256)
    ensures step == OpStep(h, topLimit, op, subCmd, args)
  {
    var arg1 := Arg1(args);
    if Falsy(arg1) {
      return Early(UsageText(Name(op)));
    }
    var text := Trim(args[|subCmd|..]);
    if op == Md5 {
      step := Output(h.md5(text));
    } else if op == Sha1 {
      step := Output(h.sha1(text));
    } else {
      step := Output(h.sha256(text));
    }
  }

  /** The encoding cases of the `switch`. */
  method CodecCase(h: Env, topLimit: int, op: Op, subCmd: string, args: string) returns (step: Step)
    requires |subCmd| <= |args| && (op == Base64 || op == Unbase64 || op == UrlEncode || op == UrlDecode)
    ensures step == OpStep(h, topLimit, op, subCmd, args)
  {
    var arg1 := Arg1(args);
    if Falsy(arg1) {
      return Early(UsageText(Name(op)));
    }
    if op == Base64 {
      step := Output(h.base64Encode(Trim(args[|subCmd|..])));
    } else if op == Unbase64 {
      step := Output(h.base64Decode(arg1.value));
    } else if op == UrlEncode {
      step := Output(h.urlEncode(Trim(args[|subCmd|..])));
    } else {
      step := Output(ToolFunctions.UrlDecode(h, arg1.value));
    }
  }

  /** The password cases of the `switch`: a random password or a UUID. */
  method PasswordCase(h: Env, topLimit: int, op: Op, subCmd: string, args: string) returns (step: Step)
    requires |subCmd| <= |args| && (op == Passwd || op == Uuid)
    ensures step == OpStep(h, topLimit, op, subCmd, args)
  {
    if op == Passwd {
      var arg1 := Arg1(args);
      var password := GeneratePassword(h, ParseInt(OrElse(arg1, "16")));
      if password.Threw? {
        return Throw;
      }
      step := Output(password.value);
    } else {
      step := Output(h.uuid);
    }
  }

  /** The AES cases of the `switch`: the operand is matched against the keyword's pattern. */
  method CipherCase(h: Env, topLimit: int, op: Op, subCmd: string, args: string) returns (step: Step)
    requires |subCmd| <= |args| && (op == Encrypt || op == Decrypt)
    ensures step == OpStep(h, topLimit, op, subCmd, args)
  {
    var m := Groups(args, Name(op));
    if m.None? {
      return Early(MatchUsageText(Name(op)));
    }
    if op == Encrypt {
      step := Output(AesEncrypt(h, m.value.0, m.value.1));
    } else {
      step := Output(AesDecrypt(h, m.value.0, m.value.1));
    }
  }

  /** The `/tools` handler. */
  method Handle(h: Env, topLimit: int, rawArgs: Option<string>) returns (reply: Outcome<string>)
    ensures reply == ChatReply(h, topLimit, rawArgs)
  {
    var args := if rawArgs.Some? then Trim(rawArgs.value) else "";
    var subCmd := ToLowerAscii(SplitWs(args)[0]);
    if subCmd == "" {
      return Done(HelpText);
    }
    var step := Switch(h, topLimit, ParseOp(subCmd), subCmd, args);
    match step {
      case Early(text) => return Done(text);
      case Throw => return Threw;
      case Output(output) =>
        var result := output;
        if Utf16Length(result) > MaxLen {
          result := result[..PrefixWithin(result, MaxLen, 0)] + Marker;
        }
        return Done("```\n" + result + "\n```");
    }
  }
}
