/**
 * How the chat command and the agent tool compare on the operations they
 * share: the same operation on the same operand gives the same result, the
 * chat command then cutting and fencing it; a zero limit is where they part.
 */
module ToolAgreement {
  import opened Wrappers
  import opened JsText
  import opened JsNumber
  import opened Runtime
  import opened Operations
  import opened ChatCommand
  import opened ChatProperties
  import opened AgentTool

  /** `/tools md5 <text>` and the tool's `md5` on `text` agree, up to cutting and fencing. */
  lemma TextAgrees(h: Env, topLimit: int, op: Op, lead: string, word: string, gap: string, text: string, trail: string, p: Params)
    requires WithOperand(lead, word, gap, text, trail) && ToLowerAscii(word) == Name(op) && TakesRest(op)
    requires p.command == Name(op) && p.input == Some(text)
    ensures ToolResult(h, topLimit, p).Done?
    ensures ChatReply(h, topLimit, Some(lead + word + gap + text + trail)) == Done(Fence(Truncate(ToolResult(h, topLimit, p).value)))
  {
    RestOperand(h, topLimit, op, lead, word, gap, text, trail);
    TextInput(h, topLimit, p, op);
  }

  /** The reports and `uuid` agree between the chat command and the tool, up to cutting and fencing. */
  lemma ReportAgrees(h: Env, topLimit: int, op: Op, lead: string, word: string, rest: string, p: Params)
    requires Blank(lead) && word != [] && NoSpace(word) && (rest == [] || IsSpace(rest[0]))
    requires ToLowerAscii(word) == Name(op) && (IsReport(op) || op == Uuid)
    requires p.command == Name(op)
    ensures ToolResult(h, topLimit, p).Done?
    ensures ChatReply(h, topLimit, Some(lead + word + rest)) == Done(Fence(Truncate(ToolResult(h, topLimit, p).value)))
  {
    if op == Uuid {
      UuidReply(h, topLimit, lead, word, rest);
      ToolUuid(h, topLimit, p);
    } else {
      ReportReply(h, topLimit, op, lead, word, rest);
      ToolReport(h, topLimit, p, op);
    }
  }

  /** A decimal numeral, signed or not, holds no white space. */
  lemma NumeralNoSpace(n: int)
    ensures NoSpace(ShowInt(n)) && IsTrimmed(ShowInt(n))
  {
    var d := ShowNat(if n < 0 then -n else n);
    assert forall x | 0 <= x < |d| :: IsDigit(d[x]);
    var s := ShowInt(n);
    assert forall x | 0 <= x < |s| :: s[x] == '-' || IsDigit(s[x]);
  }

  /**
   * `/tools top n` lists `n` processes, also for `n` = 0, while the tool's
   * `top` with limit `n` lists the configured number for 0: the two agree
   * exactly when `n` is not zero or the configured limit is zero. A negative
   * `n` reaches both as it is.
   */
  lemma LimitAgrees(h: Env, topLimit: int, op: Op, lead: string, word: string, gap: string, trail: string, n: int, p: Params)
    requires Blank(lead) && word != [] && NoSpace(word) && gap != [] && Blank(gap) && Blank(trail)
    requires ToLowerAscii(word) == Name(op) && (op == Top || op == Mem)
    requires p.command == Name(op) && p.limit == Some(n)
    ensures ChatReply(h, topLimit, Some(lead + word + gap + ShowInt(n) + trail)) == Done(Fence(Truncate(ProcessList(h, op, Int(n)))))
    ensures ToolResult(h, topLimit, p) == Done(ProcessList(h, op, Int(if n == 0 then topLimit else n)))
  {
    var text := ShowInt(n);
    NumeralNoSpace(n);
    LimitOperand(h, topLimit, op, lead, word, gap, text, trail);
    SplitOneWord(text);
    ParseShow(n);
    ProcessLimit(h, topLimit, p, op);
  }
}
