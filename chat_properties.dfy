/**
 * What the `/tools` chat command replies, stated for the shapes of command
 * text a user types: nothing, an operation alone, or an operation followed by
 * an operand.
 */
module ChatProperties {
  import opened Wrappers
  import opened JsText
  import opened JsNumber
  import opened Runtime
  import opened ToolFunctions
  import opened SystemInfo
  import opened FlagPattern
  import opened Operations
  import opened ChatCommand

  /**
   * Command text made of leading blanks, the operation's word, a gap, the
   * operand (which may itself hold white space inside) and trailing blanks.
   */
  predicate WithOperand(lead: string, word: string, gap: string, text: string, trail: string) {
    Blank(lead) && word != [] && NoSpace(word) && gap != [] && Blank(gap)
    && text != [] && IsTrimmed(text) && Blank(trail)
  }

  /** Command text that is the operation's word alone, between blanks. */
  predicate Bare(lead: string, word: string, trail: string) {
    Blank(lead) && word != [] && NoSpace(word) && Blank(trail)
  }

  /** Trimming the command text leaves the operation, the gap and the operand. */
  lemma TrimCommand(lead: string, word: string, gap: string, text: string, trail: string)
    requires WithOperand(lead, word, gap, text, trail)
    ensures Trim(lead + word + gap + text + trail) == word + gap + text
  {
    var m := word + gap + text;
    assert m[0] == word[0] && m[|m| - 1] == text[|text| - 1];
    assert lead + word + gap + text + trail == lead + m + trail;
    TrimSurrounded(lead, m, trail);
  }

  /** What follows the operation's word, trimmed, is the operand. */
  lemma TrimAfterWord(word: string, gap: string, text: string)
    requires Blank(gap) && IsTrimmed(text)
    ensures Trim((word + gap + text)[|word|..]) == text
  {
    assert (word + gap + text)[|word|..] == gap + text;
    TrimAfterSpaces(gap, text);
  }

  /**
   * Parsing a command with an operand: the operation is the lowercased word,
   * `arg1` is the first word of the operand, and the text after the
   * operation's word, trimmed, is the whole operand.
   */
  lemma {:induction false} ParseWithOperand(lead: string, word: string, gap: string, text: string, trail: string)
    requires WithOperand(lead, word, gap, text, trail)
    ensures Args(Some(lead + word + gap + text + trail)) == word + gap + text
    ensures SubCmd(word + gap + text) == ToLowerAscii(word)
    ensures Arg1(word + gap + text) == Some(SplitWs(text)[0]) && SplitWs(text)[0] != []
    ensures Trim((word + gap + text)[|word|..]) == text
  {
    TrimCommand(lead, word, gap, text, trail);
    SplitWordGap(word, gap, text);
    TrimAfterWord(word, gap, text);
  }

  /** Parsing an operation alone: there is no `arg1`. */
  lemma ParseBare(lead: string, word: string, trail: string)
    requires Bare(lead, word, trail)
    ensures var args := Args(Some(lead + word + trail));
      args == word && SubCmd(args) == ToLowerAscii(word) && Arg1(args) == None
  {
    assert lead + word + trail == lead + word + trail;
    TrimSurrounded(lead, word, trail);
    SplitOneWord(word);
  }

  /** The operation is the lowercased first word, whatever follows it. */
  lemma ParseFirstWord(lead: string, word: string, rest: string)
    requires Blank(lead) && word != [] && NoSpace(word) && (rest == [] || IsSpace(rest[0]))
    ensures SubCmd(Args(Some(lead + word + rest))) == ToLowerAscii(word)
  {
    TrimKeepsWord(lead, word, rest);
    FirstWordOf(Trim(lead + word + rest), word);
  }

  /** A text that starts with `word`, followed by white space or nothing, has `word` as its first piece. */
  lemma FirstWordOf(t: string, word: string)
    requires word != [] && NoSpace(word) && |word| <= |t| && forall x | 0 <= x < |word| :: t[x] == word[x]
    requires |word| == |t| || IsSpace(t[|word|])
    ensures SplitWs(t)[0] == word
  {
    WordEndAt(t, 0, |word|);
    assert t[..|word|] == word;
  }

  /** Trimming leading blanks and whatever ends the text keeps the first word and what delimits it. */
  lemma TrimKeepsWord(lead: string, word: string, rest: string)
    requires Blank(lead) && word != [] && NoSpace(word) && (rest == [] || IsSpace(rest[0]))
    ensures var t := Trim(lead + word + rest);
      |word| <= |t| && (forall x | 0 <= x < |word| :: t[x] == word[x]) && (|word| == |t| || IsSpace(t[|word|]))
  {
    var s := lead + word + rest;
    var n, e := |lead|, |lead| + |word|;
    assert forall x | 0 <= x < n :: s[x] == lead[x];
    assert forall x | 0 <= x < |word| :: s[n + x] == word[x];
    assert !IsSpace(s[n]) && !IsSpace(s[e - 1]);
    TrimFrom(s, n, e);
    var t := Trim(s);
    assert forall x | 0 <= x < |word| :: t[x] == s[n + x];
    if |word| < |t| {
      assert t[|word|] == s[e] == rest[0];
    }
  }

  /** Once the first word is not empty, the reply is how the step of its case finishes. */
  lemma ReplyIsStep(h: Env, topLimit: int, rawArgs: Option<string>)
    requires SubCmd(Args(rawArgs)) != []
    ensures var args := Args(rawArgs); var word := SubCmd(args);
      ChatReply(h, topLimit, rawArgs) == Finish(OpStep(h, topLimit, ParseOp(word), word, args))
  {
  }

  /** No case of the `switch` finishes with the help text: early replies start with a cross mark, results with a fence. */
  lemma StepIsNotHelp(h: Env, topLimit: int, op: Op, word: string, args: string)
    requires |word| <= |args|
    ensures Finish(OpStep(h, topLimit, op, word, args)) != Done(HelpText)
  {
    var step := OpStep(h, topLimit, op, word, args);
    assert HelpText[0] == '🔧';
    if step.Output? {
      assert Fence(Truncate(step.result))[0] == '`';
    }
  }

  /** The help text is the reply exactly when the argument text is absent or blank. */
  lemma {:induction false} HelpIffBlank(h: Env, topLimit: int, rawArgs: Option<string>)
    ensures ChatReply(h, topLimit, rawArgs) == Done(HelpText) <==> rawArgs.None? || Blank(rawArgs.value)
  {
    var args := Args(rawArgs);
    if args != [] {
      assert WordEnd(args, 0) > 0;
      var word := SubCmd(args);
      ReplyIsStep(h, topLimit, rawArgs);
      StepIsNotHelp(h, topLimit, ParseOp(word), word, args);
    }
  }

  /**
   * A first word that names no operation, in any letter case, is echoed back
   * lowercased in the unknown-command reply, whatever follows it.
   */
  lemma UnknownOperation(h: Env, topLimit: int, lead: string, word: string, rest: string)
    requires Blank(lead) && word != [] && NoSpace(word) && (rest == [] || IsSpace(rest[0]))
    requires forall op: Op :: op != Unknown ==> Name(op) != ToLowerAscii(word)
    ensures ChatReply(h, topLimit, Some(lead + word + rest)) == Done(UnknownText(ToLowerAscii(word)))
  {
    var args := Args(Some(lead + word + rest));
    ParseFirstWord(lead, word, rest);
    UnknownIffUnlabelled(ToLowerAscii(word));
    ReplyIsStep(h, topLimit, Some(lead + word + rest));
    StepUnknown(h, topLimit, SubCmd(args), args);
  }

  lemma StepUnknown(h: Env, topLimit: int, w: string, args: string)
    requires |w| <= |args|
    ensures OpStep(h, topLimit, Unknown, w, args) == Early(UnknownText(w))
  {
  }

  /**
   * An operation alone: the text operations, `encrypt` and `decrypt`, which
   * need an operand, answer with their usage line.
   */
  lemma BareUsage(h: Env, topLimit: int, op: Op, lead: string, word: string, trail: string)
    requires Bare(lead, word, trail) && ToLowerAscii(word) == Name(op)
    requires TakesRest(op) || TakesWord(op) || op == Encrypt || op == Decrypt
    ensures var reply := ChatReply(h, topLimit, Some(lead + word + trail));
      (TakesRest(op) || TakesWord(op) ==> reply == Done(UsageText(Name(op))))
      && (op == Encrypt || op == Decrypt ==> reply == Done(MatchUsageText(Name(op))))
  {
    ParseBare(lead, word, trail);
    ParseName(op);
    if TakesRest(op) || TakesWord(op) {
      NoArgUsage(h, topLimit, op, Some(lead + word + trail));
    } else {
      MatchNeedsSpace(word, Name(op));
      NoMatchUsage(h, topLimit, op, Some(lead + word + trail));
    }
  }

  /** Without `arg1`, the text operations answer with their usage line. */
  lemma NoArgUsage(h: Env, topLimit: int, op: Op, rawArgs: Option<string>)
    requires var args := Args(rawArgs); var w := SubCmd(args);
      w != [] && ParseOp(w) == op && Arg1(args) == None && (TakesRest(op) || TakesWord(op))
    ensures ChatReply(h, topLimit, rawArgs) == Done(UsageText(Name(op)))
  {
    ReplyIsStep(h, topLimit, rawArgs);
    StepNoArg(h, topLimit, op, SubCmd(Args(rawArgs)), Args(rawArgs));
  }

  lemma StepNoArg(h: Env, topLimit: int, op: Op, w: string, args: string)
    requires |w| <= |args| && Arg1(args) == None && (TakesRest(op) || TakesWord(op))
    ensures OpStep(h, topLimit, op, w, args) == Early(UsageText(Name(op)))
  {
  }

  /** Without a match, `encrypt` and `decrypt` answer with their usage line. */
  lemma NoMatchUsage(h: Env, topLimit: int, op: Op, rawArgs: Option<string>)
    requires var args := Args(rawArgs); var w := SubCmd(args);
      w != [] && ParseOp(w) == op && (op == Encrypt || op == Decrypt) && Groups(args, Name(op)) == None
    ensures ChatReply(h, topLimit, rawArgs) == Done(MatchUsageText(Name(op)))
  {
    ReplyIsStep(h, topLimit, rawArgs);
    StepNoMatch(h, topLimit, op, SubCmd(Args(rawArgs)), Args(rawArgs));
  }

  lemma StepNoMatch(h: Env, topLimit: int, op: Op, w: string, args: string)
    requires |w| <= |args| && (op == Encrypt || op == Decrypt) && Groups(args, Name(op)) == None
    ensures OpStep(h, topLimit, op, w, args) == Early(MatchUsageText(Name(op)))
  {
  }

  /** Without `arg1`, `top` and `mem` fall back on the configured limit and `passwd` on 16. */
  lemma NoArgDefaults(h: Env, topLimit: int, op: Op, rawArgs: Option<string>)
    requires var args := Args(rawArgs); var w := SubCmd(args);
      w != [] && ParseOp(w) == op && Arg1(args) == None
    ensures var reply := ChatReply(h, topLimit, rawArgs);
      (op == Top || op == Mem ==> reply == Done(Fence(Truncate(ProcessList(h, op, ParseInt(ShowInt(topLimit)))))))
      && (op == Passwd ==> reply == Finish(match PasswordOutcome(h, ParseInt("16")) case Done(pw) => Output(pw) case Threw => Throw))
  {
    ReplyIsStep(h, topLimit, rawArgs);
    StepDefaults(h, topLimit, op, SubCmd(Args(rawArgs)), Args(rawArgs));
  }

  lemma StepDefaults(h: Env, topLimit: int, op: Op, w: string, args: string)
    requires |w| <= |args| && Arg1(args) == None
    ensures op == Top || op == Mem ==> OpStep(h, topLimit, op, w, args) == Output(ProcessList(h, op, ParseInt(ShowInt(topLimit))))
    ensures op == Passwd ==> (OpStep(h, topLimit, op, w, args)
      == match PasswordOutcome(h, ParseInt("16")) case Done(pw) => Output(pw) case Threw => Throw)
  {
  }

  /**
   * An operation alone that has a default: `top` and `mem` list the
   * configured number of processes and `passwd` generates 16 characters.
   */
  lemma BareDefaults(h: Env, topLimit: int, op: Op, lead: string, word: string, trail: string)
    requires Bare(lead, word, trail) && ToLowerAscii(word) == Name(op)
    requires op == Top || op == Mem || op == Passwd
    ensures var reply := ChatReply(h, topLimit, Some(lead + word + trail));
      (op == Top || op == Mem ==> reply == Done(Fence(Truncate(ProcessList(h, op, Int(topLimit))))))
      && (op == Passwd ==> reply == Done(Fence(Password(RandomBytes(h, 16)))))
  {
    ParseBare(lead, word, trail);
    ParseName(op);
    ParseShow(topLimit);
    ParseSixteen();
    NoArgDefaults(h, topLimit, op, Some(lead + word + trail));
    if op == Passwd {
      var pw := Password(RandomBytes(h, 16));
      assert Utf16Length(pw) <= 2 * |pw| == 32;
      assert Truncate(pw) == pw;
    }
  }

  /** The default password length reads as 16. */
  lemma ParseSixteen()
    ensures ParseInt("16") == Int(16)
  {
    ParseDigits("16");
  }

  /** Text the `encrypt`/`decrypt` pattern matches holds white space. */
  lemma MatchNeedsSpace(s: string, kw: string)
    ensures Groups(s, kw) != None ==> !NoSpace(s)
  {
    GroupsAreTheMatch(s, kw);
    if Groups(s, kw) != None {
      var e :| Fits(s, kw, e);
      assert IsSpace(s[TextStart(kw, e) - 1]);
    }
  }

  /** The parse of a command with an operand, in the terms the `switch` reads it. */
  lemma ParsedWithOperand(lead: string, word: string, gap: string, text: string, trail: string)
    requires WithOperand(lead, word, gap, text, trail)
    ensures var args := Args(Some(lead + word + gap + text + trail));
      SubCmd(args) == ToLowerAscii(word) && Arg1(args) == Some(SplitWs(text)[0]) && SplitWs(text)[0] != []
      && Trim(args[|SubCmd(args)|..]) == text
  {
    ParseWithOperand(lead, word, gap, text, trail);
  }

  /**
   * The hashing and encoding operations work on the whole operand: white
   * space inside it is kept, only the white space around it is dropped.
   */
  lemma RestOperand(h: Env, topLimit: int, op: Op, lead: string, word: string, gap: string, text: string, trail: string)
    requires WithOperand(lead, word, gap, text, trail) && ToLowerAscii(word) == Name(op) && TakesRest(op)
    ensures ChatReply(h, topLimit, Some(lead + word + gap + text + trail)) == Done(Fence(Truncate(Transform(h, op, text))))
  {
    ParsedWithOperand(lead, word, gap, text, trail);
    ParseName(op);
    RestReply(h, topLimit, op, Some(lead + word + gap + text + trail), text);
  }

  lemma RestReply(h: Env, topLimit: int, op: Op, rawArgs: Option<string>, text: string)
    requires var args := Args(rawArgs); var w := SubCmd(args);
      w != [] && ParseOp(w) == op && TakesRest(op) && !Falsy(Arg1(args)) && Trim(args[|w|..]) == text
    ensures ChatReply(h, topLimit, rawArgs) == Done(Fence(Truncate(Transform(h, op, text))))
  {
    ReplyIsStep(h, topLimit, rawArgs);
    StepRest(h, topLimit, op, SubCmd(Args(rawArgs)), Args(rawArgs), text);
  }

  lemma StepRest(h: Env, topLimit: int, op: Op, w: string, args: string, text: string)
    requires |w| <= |args| && TakesRest(op) && !Falsy(Arg1(args)) && Trim(args[|w|..]) == text
    ensures OpStep(h, topLimit, op, w, args) == Output(Transform(h, op, text))
  {
  }

  /** The decoding operations take only the first word of the operand. */
  lemma WordOperand(h: Env, topLimit: int, op: Op, lead: string, word: string, gap: string, text: string, trail: string)
    requires WithOperand(lead, word, gap, text, trail) && ToLowerAscii(word) == Name(op) && TakesWord(op)
    ensures ChatReply(h, topLimit, Some(lead + word + gap + text + trail)) == Done(Fence(Truncate(Transform(h, op, SplitWs(text)[0]))))
  {
    ParsedWithOperand(lead, word, gap, text, trail);
    ParseName(op);
    ArgReply(h, topLimit, op, Some(lead + word + gap + text + trail), SplitWs(text)[0]);
  }

  /** The reply of the operations that read `arg1`, once it is present. */
  lemma ArgReply(h: Env, topLimit: int, op: Op, rawArgs: Option<string>, arg: string)
    requires var args := Args(rawArgs); var w := SubCmd(args);
      w != [] && ParseOp(w) == op && Arg1(args) == Some(arg) && arg != []
    ensures var reply := ChatReply(h, topLimit, rawArgs);
      (TakesWord(op) ==> reply == Done(Fence(Truncate(Transform(h, op, arg)))))
      && (op == Top || op == Mem ==> reply == Done(Fence(Truncate(ProcessList(h, op, ParseInt(arg))))))
      && (op == Passwd ==> reply == Finish(match PasswordOutcome(h, ParseInt(arg)) case Done(pw) => Output(pw) case Threw => Throw))
  {
    ReplyIsStep(h, topLimit, rawArgs);
    StepArg(h, topLimit, op, SubCmd(Args(rawArgs)), Args(rawArgs), arg);
  }

  lemma StepArg(h: Env, topLimit: int, op: Op, w: string, args: string, arg: string)
    requires |w| <= |args| && Arg1(args) == Some(arg) && arg != []
    ensures TakesWord(op) ==> OpStep(h, topLimit, op, w, args) == Output(Transform(h, op, arg))
    ensures op == Top || op == Mem ==> OpStep(h, topLimit, op, w, args) == Output(ProcessList(h, op, ParseInt(arg)))
    ensures op == Passwd ==> (OpStep(h, topLimit, op, w, args)
      == match PasswordOutcome(h, ParseInt(arg)) case Done(pw) => Output(pw) case Threw => Throw)
  {
  }

  /** `top` and `mem` read their limit from the first word of the operand, as `parseInt` does. */
  lemma LimitOperand(h: Env, topLimit: int, op: Op, lead: string, word: string, gap: string, text: string, trail: string)
    requires WithOperand(lead, word, gap, text, trail) && ToLowerAscii(word) == Name(op) && (op == Top || op == Mem)
    ensures ChatReply(h, topLimit, Some(lead + word + gap + text + trail))
      == Done(Fence(Truncate(ProcessList(h, op, ParseInt(SplitWs(text)[0])))))
  {
    ParsedWithOperand(lead, word, gap, text, trail);
    ParseName(op);
    ArgReply(h, topLimit, op, Some(lead + word + gap + text + trail), SplitWs(text)[0]);
  }

  /**
   * `passwd` reads its length from the first word of the operand; the reply
   * is an exception exactly when that is not a number or is negative.
   */
  lemma PasswdOperand(h: Env, topLimit: int, lead: string, word: string, gap: string, text: string, trail: string)
    requires WithOperand(lead, word, gap, text, trail) && ToLowerAscii(word) == Name(Passwd)
    ensures var reply := ChatReply(h, topLimit, Some(lead + word + gap + text + trail));
      var length := ParseInt(SplitWs(text)[0]);
      (reply == Threw <==> !SizeAccepted(length))
      && (SizeAccepted(length) ==> reply == Done(Fence(Truncate(Password(RandomBytes(h, length.value))))))
  {
    ParsedWithOperand(lead, word, gap, text, trail);
    ParseName(Passwd);
    ArgReply(h, topLimit, Passwd, Some(lead + word + gap + text + trail), SplitWs(text)[0]);
  }

  /** `port`, `disk`, `memory`, `load`, `net` and `uuid` ignore anything after the operation. */
  lemma OperandIgnored(h: Env, topLimit: int, raw1: Option<string>, raw2: Option<string>)
    requires SubCmd(Args(raw1)) == SubCmd(Args(raw2))
    requires IsReport(ParseOp(SubCmd(Args(raw1)))) || ParseOp(SubCmd(Args(raw1))) == Uuid
    ensures ChatReply(h, topLimit, raw1) == ChatReply(h, topLimit, raw2)
    ensures ChatReply(h, topLimit, raw1).Done?
  {
    var w := SubCmd(Args(raw1));
    NameNonEmpty(ParseOp(w));
    ReplyIsStep(h, topLimit, raw1);
    ReplyIsStep(h, topLimit, raw2);
    StepNoOperand(h, topLimit, ParseOp(w), w, Args(raw1), Args(raw2));
  }

  /**
   * `/tools port`, `disk`, `memory`, `load` or `net`, with or without more
   * text: the reply is the report, cut and fenced.
   */
  lemma ReportReply(h: Env, topLimit: int, op: Op, lead: string, word: string, rest: string)
    requires Blank(lead) && word != [] && NoSpace(word) && (rest == [] || IsSpace(rest[0]))
    requires ToLowerAscii(word) == Name(op) && IsReport(op)
    ensures ChatReply(h, topLimit, Some(lead + word + rest)) == Done(Fence(Truncate(Report(h, op))))
  {
    var raw := Some(lead + word + rest);
    var w := SubCmd(Args(raw));
    assert ParseOp(w) == op by {
      ParseFirstWord(lead, word, rest);
      ParseName(op);
    }
    NameNonEmpty(op);
    ReplyIsStep(h, topLimit, raw);
    StepReport(h, topLimit, op, w, Args(raw));
  }

  lemma StepReport(h: Env, topLimit: int, op: Op, w: string, args: string)
    requires |w| <= |args| && IsReport(op)
    ensures OpStep(h, topLimit, op, w, args) == Output(Report(h, op))
  {
  }

  /** `/tools uuid`, with or without more text: the reply is a fresh UUID, cut and fenced. */
  lemma UuidReply(h: Env, topLimit: int, lead: string, word: string, rest: string)
    requires Blank(lead) && word != [] && NoSpace(word) && (rest == [] || IsSpace(rest[0]))
    requires ToLowerAscii(word) == Name(Uuid)
    ensures ChatReply(h, topLimit, Some(lead + word + rest)) == Done(Fence(Truncate(h.uuid)))
  {
    var raw := Some(lead + word + rest);
    var w := SubCmd(Args(raw));
    assert ParseOp(w) == Uuid by {
      ParseFirstWord(lead, word, rest);
      ParseName(Uuid);
    }
    NameNonEmpty(Uuid);
    ReplyIsStep(h, topLimit, raw);
    StepUuid(h, topLimit, w, Args(raw));
  }

  lemma StepUuid(h: Env, topLimit: int, w: string, args: string)
    requires |w| <= |args|
    ensures OpStep(h, topLimit, Uuid, w, args) == Output(h.uuid)
  {
  }

  lemma StepNoOperand(h: Env, topLimit: int, op: Op, w: string, args1: string, args2: string)
    requires |w| <= |args1| && |w| <= |args2| && (IsReport(op) || op == Uuid)
    ensures OpStep(h, topLimit, op, w, args1) == OpStep(h, topLimit, op, w, args2)
    ensures OpStep(h, topLimit, op, w, args1).Output?
  {
  }

  /** With a match, `encrypt` runs on its two groups. */
  lemma EncryptReply(h: Env, topLimit: int, rawArgs: Option<string>)
    requires var args := Args(rawArgs); var w := SubCmd(args);
      w != [] && ParseOp(w) == Encrypt && Groups(args, "encrypt").Some?
    ensures var g := Groups(Args(rawArgs), "encrypt").value;
      ChatReply(h, topLimit, rawArgs) == Done(Fence(Truncate(AesEncrypt(h, g.0, g.1))))
  {
    ReplyIsStep(h, topLimit, rawArgs);
    StepEncrypt(h, topLimit, SubCmd(Args(rawArgs)), Args(rawArgs));
  }

  /** With a match, `decrypt` runs on its two groups. */
  lemma DecryptReply(h: Env, topLimit: int, rawArgs: Option<string>)
    requires var args := Args(rawArgs); var w := SubCmd(args);
      w != [] && ParseOp(w) == Decrypt && Groups(args, "decrypt").Some?
    ensures var g := Groups(Args(rawArgs), "decrypt").value;
      ChatReply(h, topLimit, rawArgs) == Done(Fence(Truncate(AesDecrypt(h, g.0, g.1))))
  {
    ReplyIsStep(h, topLimit, rawArgs);
    StepDecrypt(h, topLimit, SubCmd(Args(rawArgs)), Args(rawArgs));
  }

  lemma StepCipher(h: Env, topLimit: int, op: Op, w: string, args: string)
    requires |w| <= |args| && (op == Encrypt || op == Decrypt) && Groups(args, Name(op)).Some?
    ensures var g := Groups(args, Name(op)).value;
      OpStep(h, topLimit, op, w, args) == Output(if op == Encrypt then AesEncrypt(h, g.0, g.1) else AesDecrypt(h, g.0, g.1))
  {
  }

  lemma StepEncrypt(h: Env, topLimit: int, w: string, args: string)
    requires |w| <= |args| && Groups(args, "encrypt").Some?
    ensures var g := Groups(args, "encrypt").value;
      OpStep(h, topLimit, Encrypt, w, args) == Output(AesEncrypt(h, g.0, g.1))
  {
    assert Name(Encrypt) == "encrypt";
    StepCipher(h, topLimit, Encrypt, w, args);
  }

  lemma StepDecrypt(h: Env, topLimit: int, w: string, args: string)
    requires |w| <= |args| && Groups(args, "decrypt").Some?
    ensures var g := Groups(args, "decrypt").value;
      OpStep(h, topLimit, Decrypt, w, args) == Output(AesDecrypt(h, g.0, g.1))
  {
    assert Name(Decrypt) == "decrypt";
    StepCipher(h, topLimit, Decrypt, w, args);
  }

  /** A text the pattern for `kw` matches holds `kw` itself. */
  lemma MatchNeedsKeyword(s: string, kw: string)
    ensures Groups(s, kw) != None ==> exists st: nat :: KeywordAt(s, kw, st)
  {
    GroupsAreTheMatch(s, kw);
    if Groups(s, kw) != None {
      var e :| Fits(s, kw, e);
      assert KeywordAt(s, kw, e.start);
    }
  }

  /** An occurrence of `kw` in the trimmed text is one in the raw text. */
  lemma KeywordInTrimmed(raw: string, kw: string, st: nat)
    requires KeywordAt(Trim(raw), kw, st)
    ensures exists at: nat :: KeywordAt(raw, kw, at)
  {
    var t := Trim(raw);
    var a := TrimSlice(raw);
    var n := |kw|;
    KeywordAtMeans(t, kw, st);
    forall i | 0 <= i < n
      ensures raw[a + st + i] == kw[i]
    {
      assert t[st..st + n][i] == kw[i];
      assert t[st + i] == raw[a + st + i];
    }
    assert raw[a + st..a + st + n] == kw;
    KeywordAtMeans(raw, kw, a + st);
  }

  /**
   * The operation's word is read in any letter case, but the pattern for
   * `encrypt` and `decrypt` looks for the word in lower case: when the
   * command writes it otherwise and the lower-case label occurs nowhere in
   * it, the reply is the usage line, whatever the operand.
   */
  lemma CaseSensitiveKeyword(h: Env, topLimit: int, op: Op, lead: string, word: string, rest: string)
    requires Blank(lead) && word != [] && NoSpace(word) && (rest == [] || IsSpace(rest[0]))
    requires (op == Encrypt || op == Decrypt) && ToLowerAscii(word) == Name(op)
    requires forall st: nat :: !KeywordAt(lead + word + rest, Name(op), st)
    ensures ChatReply(h, topLimit, Some(lead + word + rest)) == Done(MatchUsageText(Name(op)))
  {
    var raw := lead + word + rest;
    ParseFirstWord(lead, word, rest);
    ParseName(op);
    MatchNeedsKeyword(Args(Some(raw)), Name(op));
    if Groups(Args(Some(raw)), Name(op)) != None {
      var st: nat :| KeywordAt(Trim(raw), Name(op), st);
      KeywordInTrimmed(raw, Name(op), st);
    }
    NoMatchUsage(h, topLimit, op, Some(raw));
  }

  /** A keyword occurrence puts the keyword's second character right after its first. */
  lemma KeywordSecond(s: string, kw: string, st: nat)
    requires |kw| > 1
    ensures KeywordAt(s, kw, st) ==> st + 1 < |s| && s[st + 1] == kw[1]
  {
    KeywordAtMeans(s, kw, st);
    if KeywordAt(s, kw, st) {
      assert s[st..st + |kw|][1] == kw[1];
    }
  }

  /** A text without the keyword's second character holds no occurrence of the keyword. */
  lemma AbsentKeyword(s: string, kw: string)
    requires |kw| > 1 && forall x | 0 <= x < |s| :: s[x] != kw[1]
    ensures forall st: nat :: !KeywordAt(s, kw, st)
  {
    forall st: nat
      ensures !KeywordAt(s, kw, st)
    {
      KeywordSecond(s, kw, st);
    }
  }

  /**
   * `ENCRYPT` gets the usage line even before a well-formed operand such as
   * ` hello -p pw`: any operand without the letter `n` leaves the
   * lower-case keyword nowhere to match.
   */
  lemma UpperCaseEncrypt(h: Env, topLimit: int, rest: string)
    requires rest == [] || IsSpace(rest[0])
    requires forall x | 0 <= x < |rest| :: rest[x] != 'n'
    ensures ChatReply(h, topLimit, Some("ENCRYPT" + rest)) == Done(MatchUsageText("encrypt"))
  {
    var word := "ENCRYPT";
    LowerIs(word, Name(Encrypt));
    var raw := "" + word + rest;
    assert raw == word + rest;
    assert forall x | 0 <= x < |raw| :: raw[x] != 'n' by {
      forall x | 0 <= x < |raw|
        ensures raw[x] != 'n'
      {
        if x >= |word| {
          assert raw[x] == rest[x - |word|];
        }
      }
    }
    AbsentKeyword(raw, Name(Encrypt));
    CaseSensitiveKeyword(h, topLimit, Encrypt, "", word, rest);
  }
}
