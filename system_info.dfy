/**
 * The system-monitoring helpers: the shell commands they run and the
 * fallback order of the port listing. What a command prints comes from
 * `Env.exec`.
 */
module SystemInfo {
  import opened JsText
  import opened JsNumber
  import opened Runtime

  const TopPrefix := "ps aux --sort=-%cpu | head -"
  const MemPrefix := "ps aux --sort=-%mem | head -"

  /** The command of `getTopProcesses(limit)`: one header line plus `limit` rows. */
  function TopCommand(limit: Number): (cmd: string)
    ensures StartsWith(cmd, TopPrefix) && |cmd| > |TopPrefix|
  {
    TopPrefix + Show(Succ(limit))
  }

  /** The command of `getTopMemoryProcesses(limit)`. */
  function MemCommand(limit: Number): (cmd: string)
    ensures StartsWith(cmd, MemPrefix) && |cmd| > |MemPrefix|
  {
    MemPrefix + Show(Succ(limit))
  }

  /** `getTopProcesses(limit)`. */
  function TopProcesses(h: Env, limit: Number): string {
    h.exec(TopCommand(limit))
  }

  /** `getTopMemoryProcesses(limit)`. */
  function TopMemoryProcesses(h: Env, limit: Number): string {
    h.exec(MemCommand(limit))
  }

  /**
   * For an integer limit, `head` is given a count that reads back as
   * `limit + 1`; the two commands differ only in the sort key.
   */
  lemma HeadCountIsLimitPlusOne(n: int)
    ensures StartsWith(TopCommand(Int(n)), TopPrefix) && ParseInt(TopCommand(Int(n))[|TopPrefix|..]) == Int(n + 1)
    ensures StartsWith(MemCommand(Int(n)), MemPrefix) && ParseInt(MemCommand(Int(n))[|MemPrefix|..]) == Int(n + 1)
    ensures TopCommand(Int(n))[|TopPrefix|..] == MemCommand(Int(n))[|MemPrefix|..]
  {
    var count := ShowInt(n + 1);
    assert TopCommand(Int(n)) == TopPrefix + count;
    assert TopCommand(Int(n))[..|TopPrefix|] == TopPrefix;
    assert TopCommand(Int(n))[|TopPrefix|..] == count;
    assert MemCommand(Int(n))[..|MemPrefix|] == MemPrefix;
    assert MemCommand(Int(n))[|MemPrefix|..] == count;
    ParseShow(n + 1);
  }

  /** A NaN limit reaches `head` as the text `NaN`. */
  lemma NaNLimit()
    ensures TopCommand(NaN) == TopPrefix + "NaN"
    ensures MemCommand(NaN) == MemPrefix + "NaN"
  {
  }

  const DiskCommand := "df -h"
  const MemoryCommand := "free -h"
  const LoadCommand := "uptime"
  const NetCommand := "ss -s"

  /** The port listings `getPorts` tries, in order. */
  const PortCommands := ["ss -tuln", "netstat -tuln 2>/dev/null", "lsof -i -P -n 2>/dev/null | grep LISTEN"]

  /** What marks the output of a failed command. */
  const ErrorMark := "Error"

  const NoPortCommand := ErrorMark + ": No suitable command found (tried ss, netstat, lsof)"

  /** An output `getPorts` accepts: not an error and not blank. */
  predicate Usable(output: string) {
    !StartsWith(output, ErrorMark) && Trim(output) != ""
  }

  /** The first usable output, or the fixed error when there is none. */
  function FirstUsable(outputs: seq<string>): (r: string)
    ensures r == NoPortCommand || (r in outputs && Usable(r))
  {
    if outputs == [] then NoPortCommand
    else if Usable(outputs[0]) then outputs[0]
    else FirstUsable(outputs[1..])
  }

  /** What each port listing prints under `h`. */
  function PortOutputs(h: Env): (outputs: seq<string>)
    ensures |outputs| == |PortCommands|
    ensures forall i | 0 <= i < |PortCommands| :: outputs[i] == h.exec(PortCommands[i])
  {
    seq(|PortCommands|, (i: int) requires 0 <= i < |PortCommands| => h.exec(PortCommands[i]))
  }

  /** `getPorts`: runs the listings in order and returns the first usable output. */
  method GetPorts(h: Env) returns (r: string)
    ensures r == FirstUsable(PortOutputs(h))
    ensures r != NoPortCommand <==> exists i | 0 <= i < |PortCommands| :: Usable(h.exec(PortCommands[i]))
    ensures r != NoPortCommand ==> exists i | 0 <= i < |PortCommands| ::
      r == h.exec(PortCommands[i]) && Usable(r) && forall k | 0 <= k < i :: !Usable(h.exec(PortCommands[k]))
  {
    var outputs := PortOutputs(h);
    FirstUsableIsFirst(outputs);
    for i := 0 to |PortCommands|
      invariant FirstUsable(outputs[i..]) == FirstUsable(outputs)
    {
      var result := h.exec(PortCommands[i]);
      assert outputs[i..][0] == result;
      if Usable(result) {
        return result;
      }
      assert outputs[i..][1..] == outputs[i + 1..];
    }
    return NoPortCommand;
  }

  lemma ErrorTextUnusable()
    ensures !Usable(NoPortCommand)
  {
    assert NoPortCommand[..|ErrorMark|] == ErrorMark;
  }

  /**
   * `FirstUsable` finds a usable output exactly when there is one, and then
   * the one that comes first; the error text itself is never usable.
   */
  lemma {:induction false} FirstUsableIsFirst(outputs: seq<string>)
    ensures (exists i | 0 <= i < |outputs| :: Usable(outputs[i])) <==> FirstUsable(outputs) != NoPortCommand
    ensures FirstUsable(outputs) != NoPortCommand ==> exists i | 0 <= i < |outputs| ::
      FirstUsable(outputs) == outputs[i] && Usable(outputs[i]) && forall k | 0 <= k < i :: !Usable(outputs[k])
  {
    ErrorTextUnusable();
    if outputs != [] {
      var tail := outputs[1..];
      FirstUsableIsFirst(tail);
      if !Usable(outputs[0]) {
        if exists i | 0 <= i < |tail| :: Usable(tail[i]) {
          var i :| 0 <= i < |tail| && FirstUsable(tail) == tail[i] && Usable(tail[i]) && forall k | 0 <= k < i :: !Usable(tail[k]);
          assert outputs[i + 1] == tail[i];
          assert forall k | 0 <= k < i + 1 :: !Usable(outputs[k]) by {
            forall k | 0 < k < i + 1 ensures !Usable(outputs[k]) {
              assert outputs[k] == tail[k - 1];
            }
          }
        } else {
          forall i | 0 <= i < |outputs| ensures !Usable(outputs[i]) {
            if i > 0 {
              assert outputs[i] == tail[i - 1];
            }
          }
        }
      }
    }
  }
}
