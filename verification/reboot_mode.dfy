/**
 * The reboot-mode selection of the K3V2 OEM1 board: `_k3v2oem1_reset` maps
 * the reboot command (or none) to the code it stores in the reset register,
 * looking the code up with `find_rebootmap` in the `k3v2_map` table.  The
 * register write and the reset itself are not modelled.
 */
module RebootMode {
  import opened Common

  /** `struct k3v2_cmdword`: a reboot command and the code stored for it. */
  datatype CmdWord = CmdWord(name: string, num: nat)

  /** `k3v2_map`. */
  const RebootMap: seq<CmdWord> := [
    CmdWord("coldboot", 0x10),
    CmdWord("bootloader", 0x01),
    CmdWord("recovery", 0x02),
    CmdWord("resetfactory", 0x03),
    CmdWord("resetuser", 0x04),
    CmdWord("sdupdate", 0x05),
    CmdWord("oem_rtc", 0x06),
    CmdWord("usbupdate", 0x09)]

  /** `RESET_COLD_FLAG`, defined as "coldboot": the name of the cold-boot entry. */
  const ColdFlag: string := "coldboot"

  /** The commands `_k3v2oem1_reset` accepts as warm-boot modes, in the order it tests them. */
  const WarmCommands: seq<string> :=
    ["bootloader", "recovery", "resetfactory", "resetuser", "oem_rtc", "usbupdate", "sdupdate"]

  /**
   * Where the search loop of `find_rebootmap` started at `n` stops: the
   * first entry named `str`, or the table length when there is none.
   */
  function LoopExit(str: string, n: nat): (k: nat)
    requires n <= |RebootMap|
    ensures n <= k <= |RebootMap|
    ensures k < |RebootMap| ==> RebootMap[k].name == str
    ensures forall i :: n <= i < k ==> RebootMap[i].name != str
    decreases |RebootMap| - n
  {
    if n == |RebootMap| then n
    else if RebootMap[n].name == str then n
    else LoopExit(str, n + 1)
  }

  /**
   * The loop runs off the end exactly for a name that is not in the table;
   * `find_rebootmap` then reads `k3v2_map[8]`, one past the last entry.
   */
  lemma {:induction false} LoopExitPastEnd(str: string, n: nat)
    requires n <= |RebootMap|
    ensures LoopExit(str, n) == |RebootMap| <==> forall i :: n <= i < |RebootMap| ==> RebootMap[i].name != str
    decreases |RebootMap| - n
  {
    if n < |RebootMap| && RebootMap[n].name != str {
      LoopExitPastEnd(str, n + 1);
    }
  }

  /** `str` is the name of a table entry. */
  predicate InTable(str: string) {
    exists i :: 0 <= i < |RebootMap| && RebootMap[i].name == str
  }

  /**
   * `find_rebootmap`: the code of the entry named `str`.  Callers must pass
   * a name in the table, or the lookup reads past its end.
   */
  function FindRebootMap(str: string): (num: nat)
    requires InTable(str)
    ensures exists i :: 0 <= i < |RebootMap| && RebootMap[i].name == str && RebootMap[i].num == num
  {
    LoopExitPastEnd(str, 0);
    RebootMap[LoopExit(str, 0)].num
  }

  /** No two entries share a name, so the first match is the only one. */
  lemma NamesDistinct()
    ensures forall i, j :: 0 <= i < j < |RebootMap| ==> RebootMap[i].name != RebootMap[j].name
  {
  }

  /** The code of every table entry, found by name. */
  lemma FindRebootMapCodes(i: nat)
    requires i < |RebootMap|
    ensures FindRebootMap(RebootMap[i].name) == RebootMap[i].num
  {
    NamesDistinct();
  }

  /**
   * The code `_k3v2oem1_reset` stores: the cold-boot code for no command or
   * an unsupported one, the command's own code for a warm-boot command.
   */
  function ResetCode(cmd: Option<string>): (num: nat)
    ensures exists i :: 0 <= i < |RebootMap| && RebootMap[i].num == num
  {
    assert RebootMap[0].name == ColdFlag;
    match cmd
    case None => FindRebootMap(ColdFlag)
    case Some(c) =>
      if c in WarmCommands then
        var w :| 0 <= w < |WarmCommands| && WarmCommands[w] == c;
        assert InTable(c) by {
          assert RebootMap[WarmIndex[w]].name == c;
        }
        FindRebootMap(c)
      else FindRebootMap(ColdFlag)
  }

  /** The position in `k3v2_map` of each warm-boot command. */
  const WarmIndex: seq<nat> := [1, 2, 3, 4, 6, 7, 5]

  /** The codes the reset path is meant to select for the warm-boot commands, in their order. */
  const WarmCodes: seq<nat> := [0x01, 0x02, 0x03, 0x04, 0x06, 0x09, 0x05]

  /** No command selects the cold-boot code 0x10. */
  lemma ResetCodeNone()
    ensures ResetCode(None) == 0x10
  {
    FindRebootMapCodes(0);
  }

  /** Each warm-boot command selects its own code. */
  lemma ResetCodeWarm(w: nat)
    requires w < |WarmCommands|
    ensures ResetCode(Some(WarmCommands[w])) == WarmCodes[w]
  {
    var i := WarmIndex[w];
    assert RebootMap[i].name == WarmCommands[w];
    FindRebootMapCodes(i);
  }

  /** Any other command, "coldboot" included, selects the cold-boot code 0x10. */
  lemma ResetCodeOther(c: string)
    requires c !in WarmCommands
    ensures ResetCode(Some(c)) == 0x10
  {
    FindRebootMapCodes(0);
  }
}
