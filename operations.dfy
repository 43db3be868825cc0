/**
 * The operation names both dispatchers switch on, and what the operations
 * the two share compute. The word is matched against the case labels once;
 * the dispatchers then branch on the result.
 */
module Operations {
  import opened JsNumber
  import opened Runtime
  import opened SystemInfo
  import ToolFunctions

  datatype Op =
    | Top | Mem | Port | Disk | Memory | Load | Net
    | Md5 | Sha1 | Sha256 | Base64 | Unbase64 | UrlEncode | UrlDecode
    | Passwd | Uuid | Encrypt | Decrypt
    | Unknown

  /** The case label of an operation. */
  function Name(op: Op): string {
    match op
    case Top => "top"
    case Mem => "mem"
    case Port => "port"
    case Disk => "disk"
    case Memory => "memory"
    case Load => "load"
    case Net => "net"
    case Md5 => "md5"
    case Sha1 => "sha1"
    case Sha256 => "sha256"
    case Base64 => "base64"
    case Unbase64 => "unbase64"
    case UrlEncode => "urlencode"
    case UrlDecode => "urldecode"
    case Passwd => "passwd"
    case Uuid => "uuid"
    case Encrypt => "encrypt"
    case Decrypt => "decrypt"
    case Unknown => ""
  }

  /** The labelled cases, in the order the `switch` lists them. */
  const Cases := [Top, Mem, Port, Disk, Memory, Load, Net, Md5, Sha1, Sha256, Base64,
                  Unbase64, UrlEncode, UrlDecode, Passwd, Uuid, Encrypt, Decrypt]

  /** The first case from position `i` on whose label is `word`. */
  function ParseFrom(word: string, i: nat): (op: Op)
    requires i <= |Cases|
    ensures op != Unknown ==> Name(op) == word && op in Cases[i..]
    ensures op == Unknown <==> forall k | i <= k < |Cases| :: Name(Cases[k]) != word
    decreases |Cases| - i
  {
    assert Unknown !in Cases;
    if i == |Cases| then Unknown
    else if Name(Cases[i]) == word then Cases[i]
    else
      var op := ParseFrom(word, i + 1);
      assert Cases[i + 1..] == Cases[i..][1..];
      op
  }

  /** The case a `switch` on `word` takes; `Unknown` stands for `default`. */
  function ParseOp(word: string): (op: Op)
    ensures op != Unknown ==> Name(op) == word && op in Cases
  {
    ParseFrom(word, 0)
  }

  /** `default` is taken exactly by the words that are no case label. */
  lemma UnknownIffUnlabelled(word: string)
    ensures ParseOp(word) == Unknown <==> forall o: Op :: o != Unknown ==> Name(o) != word
  {
    EveryCaseListed();
    if ParseOp(word) == Unknown {
      forall o: Op | o != Unknown
        ensures Name(o) != word
      {
        assert o in Cases;
        var k :| 0 <= k < |Cases| && Cases[k] == o;
      }
    }
  }

  /** Every operation but `Unknown` has a case. */
  lemma EveryCaseListed()
    ensures forall o: Op :: o != Unknown ==> o in Cases
  {
    forall o: Op | o != Unknown
      ensures o in Cases
    {
      match o
      case Top => assert Cases[0] == o;
      case Mem => assert Cases[1] == o;
      case Port => assert Cases[2] == o;
      case Disk => assert Cases[3] == o;
      case Memory => assert Cases[4] == o;
      case Load => assert Cases[5] == o;
      case Net => assert Cases[6] == o;
      case Md5 => assert Cases[7] == o;
      case Sha1 => assert Cases[8] == o;
      case Sha256 => assert Cases[9] == o;
      case Base64 => assert Cases[10] == o;
      case Unbase64 => assert Cases[11] == o;
      case UrlEncode => assert Cases[12] == o;
      case UrlDecode => assert Cases[13] == o;
      case Passwd => assert Cases[14] == o;
      case Uuid => assert Cases[15] == o;
      case Encrypt => assert Cases[16] == o;
      case Decrypt => assert Cases[17] == o;
    }
  }

  /** No two operations share a label. */
  lemma NamesDistinct(a: Op, b: Op)
    requires Name(a) == Name(b)
    ensures a == b
  {
  }

  lemma NameNonEmpty(op: Op)
    requires op != Unknown
    ensures Name(op) != []
  {
  }

  /** The case labels are written in lower case. */
  lemma NameIsLowerCase(op: Op)
    ensures forall x | 0 <= x < |Name(op)| :: !('A' <= Name(op)[x] <= 'Z')
  {
  }

  /** Every case label selects its own case, so `default` is taken exactly by the other words. */
  lemma ParseName(op: Op)
    requires op != Unknown
    ensures ParseOp(Name(op)) == op
  {
    UnknownIffUnlabelled(Name(op));
    NamesDistinct(ParseOp(Name(op)), op);
  }

  /** The operations that turn an input text into a result text. */
  predicate IsTextOp(op: Op) {
    op.Md5? || op.Sha1? || op.Sha256? || op.Base64? || op.Unbase64? || op.UrlEncode? || op.UrlDecode?
  }

  /** The operations that report on the system and take no argument. */
  predicate IsReport(op: Op) {
    op.Port? || op.Disk? || op.Memory? || op.Load? || op.Net?
  }

  /** What a text operation makes of its input. */
  function Transform(h: Env, op: Op, text: string): string
    requires IsTextOp(op)
  {
    match op
    case Md5 => h.md5(text)
    case Sha1 => h.sha1(text)
    case Sha256 => h.sha256(text)
    case Base64 => h.base64Encode(text)
    case Unbase64 => h.base64Decode(text)
    case UrlEncode => h.urlEncode(text)
    case UrlDecode => ToolFunctions.UrlDecode(h, text)
  }

  /** What a report operation prints: `getPorts()` or the output of its command. */
  function Report(h: Env, op: Op): string
    requires IsReport(op)
  {
    match op
    case Port => FirstUsable(PortOutputs(h))
    case Disk => h.exec(DiskCommand)
    case Memory => h.exec(MemoryCommand)
    case Load => h.exec(LoadCommand)
    case Net => h.exec(NetCommand)
  }

  /** The process listing of `top` (by CPU) or `mem` (by memory) for a limit. */
  function ProcessList(h: Env, op: Op, limit: Number): string
    requires op == Top || op == Mem
  {
    if op == Top then TopProcesses(h, limit) else TopMemoryProcesses(h, limit)
  }
}
