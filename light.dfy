/**
 * controlLight: validates the requested case-light action and builds the
 * G-code line posted to the printer. The POST itself is a parameter that
 * says how the request ended.
 */
module Light {
  import opened Wrappers
  import opened Text

  /** How the HTTP POST of the G-code script ended. */
  datatype PostOutcome = Delivered | TimedOut | Raised(error: string)

  /** The G-code line that was posted (None when none was), and the reply text. */
  datatype LightReply = LightReply(command: Option<string>, reply: string)

  const InvalidActionReply := "❌ 无效操作，请使用 on/off/toggle/status"
  const TimeoutReply := "❌ 请求超时，请检查Moonraker连接"

  predicate IsLightAction(action: string) {
    action in {"on", "off", "toggle", "status"}
  }

  /** "SET_PIN PIN=caselight VALUE=1" for "on", VALUE=0 for every other accepted action. */
  function LightCommand(action: string): string {
    "SET_PIN PIN=caselight VALUE=" + (if action == "on" then "1" else "0")
  }

  function ControlLight(action: string, post: PostOutcome): (r: LightReply)
    ensures r.command.Some? <==> IsLightAction(Lower(action))
    ensures r.command.None? ==> r.reply == InvalidActionReply
    ensures r.command.Some? ==> r.command.value == LightCommand(Lower(action))
  {
    var action := Lower(action);
    if !IsLightAction(action) then LightReply(None, InvalidActionReply)
    else
      var command := LightCommand(action);
      match post
      case Delivered => LightReply(Some(command), "✅ 补光灯已" + (if action == "on" then "开启" else "关闭"))
      case TimedOut => LightReply(Some(command), TimeoutReply)
      case Raised(e) => LightReply(Some(command), "❌ 控制异常: " + e)
  }

  /** The action is matched without regard to ASCII letter case. */
  lemma ControlLightIgnoresCase(action: string, post: PostOutcome)
    ensures ControlLight(Lower(action), post) == ControlLight(action, post)
  {
    LowerIdempotent(action);
  }

  /**
   * Only "on" sets the pin to 1 and is reported as switched on; "off",
   * "toggle" and "status" all set it to 0 and are reported as switched off.
   */
  lemma OnlyOnSwitchesOn(action: string)
    requires IsLightAction(Lower(action))
    ensures var r := ControlLight(action, Delivered);
      r.command.Some? &&
      (r.command.value == "SET_PIN PIN=caselight VALUE=1" <==> Lower(action) == "on") &&
      (r.command.value == "SET_PIN PIN=caselight VALUE=0" <==> Lower(action) != "on") &&
      (r.reply == "✅ 补光灯已开启" <==> Lower(action) == "on") &&
      (r.reply == "✅ 补光灯已关闭" <==> Lower(action) != "on")
  {
    var c1 := "SET_PIN PIN=caselight VALUE=1";
    var c0 := "SET_PIN PIN=caselight VALUE=0";
    assert c1 != c0 by { assert c1[|c1| - 1] != c0[|c0| - 1]; }
    var on := "✅ 补光灯已开启";
    var off := "✅ 补光灯已关闭";
    assert on != off by { assert on[|on| - 2] != off[|off| - 2]; }
  }

  /** A failed request still reports the command as attempted, with the failure as the reply. */
  lemma FailedPostReply(action: string, error: string)
    requires IsLightAction(Lower(action))
    ensures ControlLight(action, TimedOut).reply == TimeoutReply
    ensures ControlLight(action, Raised(error)).reply == "❌ 控制异常: " + error
  {
  }
}
