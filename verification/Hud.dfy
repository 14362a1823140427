/** The comparison of two HUD snapshots (diffHUDSnapshots in AgentBridge/events.go). */
module HudDiff {
  import opened Common
  import opened TacticalEvents
  import opened SnapshotDiff

  datatype HudMessage = HudMessage(text: string, frame: nat, color: nat)

  datatype Popup = Popup(text: string, x: int, y: int, width: int, color: nat, pausesGame: bool, pausesMusic: bool)

  datatype Timer = Timer(name: string, text: string, countdown: bool)

  /** `subtitle` holds the lines of a subtitle that is shown. */
  datatype Hud = Hud(frame: nat, messages: seq<HudMessage>, popup: Option<Popup>, subtitle: Option<seq<string>>,
                     timersVisible: bool, timers: seq<Timer>)

  /** baseHUDEvent: about no object, and at the HUD's own frame if it has one. */
  function HudEvent(world: Snapshot, hud: Hud, typ: string, severity: Severity, wake: bool): Event {
    Event(0, typ, severity, wake, if hud.frame != 0 then hud.frame else world.frame, world.snapshotId, "", [], None)
  }

  function MessageEvents(previous: Hud, current: Hud, world: Snapshot): seq<Event> {
    if exists m :: m in current.messages && m !in previous.messages
    then [HudEvent(world, current, "hud.message", "notice", true)] else []
  }

  function PopupEvents(previous: Hud, current: Hud, world: Snapshot): seq<Event> {
    if previous.popup == current.popup then []
    else match current.popup
         case None => [HudEvent(world, current, "hud.popupClosed", "info", false)]
         case Some(popup) =>
           [HudEvent(world, current, "hud.popup", if popup.pausesGame then "critical" else "notice", true)]
  }

  function SubtitleEvents(previous: Hud, current: Hud, world: Snapshot): seq<Event> {
    if previous.subtitle == current.subtitle || current.subtitle.None? then []
    else if previous.subtitle.None? then [HudEvent(world, current, "hud.subtitle", "notice", true)]
    else [HudEvent(world, current, "hud.subtitle", "info", false)]
  }

  function TimerEvents(previous: Hud, current: Hud, world: Snapshot): seq<Event> {
    if current.timersVisible && previous.timers != current.timers
    then [HudEvent(world, current, "hud.timer", "info", false)] else []
  }

  /** Without an earlier HUD there is nothing to report. */
  function HudEvents(previous: Option<Hud>, current: Hud, world: Snapshot): seq<Event> {
    match previous
    case None => []
    case Some(p) =>
      MessageEvents(p, current, world) + PopupEvents(p, current, world) + SubtitleEvents(p, current, world)
      + TimerEvents(p, current, world)
  }

  method NewMessages(previous: seq<HudMessage>, current: seq<HudMessage>) returns (unseen: seq<HudMessage>)
    ensures forall m :: m in unseen <==> m in current && m !in previous
  {
    var known := {};
    for i := 0 to |previous|
      invariant forall m :: m in known <==> m in previous[..i]
    {
      known := known + {previous[i]};
    }
    unseen := [];
    for i := 0 to |current|
      invariant forall m :: m in unseen <==> m in current[..i] && m !in previous
    {
      if current[i] !in known {
        unseen := unseen + [current[i]];
      }
    }
  }

  method ReportMessages(previous: Hud, current: Hud, world: Snapshot) returns (events: seq<Event>)
    ensures events == MessageEvents(previous, current, world)
  {
    var messages := NewMessages(previous.messages, current.messages);
    if |messages| == 0 {
      return [];
    }
    assert messages[0] in messages;
    return [HudEvent(world, current, "hud.message", "notice", true)];
  }

  method ReportPopup(previous: Hud, current: Hud, world: Snapshot) returns (events: seq<Event>)
    ensures events == PopupEvents(previous, current, world)
  {
    if previous.popup == current.popup {
      return [];
    }
    var typ, severity, wake := "hud.popup", "notice", true;
    if current.popup.None? {
      typ, severity, wake := "hud.popupClosed", "info", false;
    } else if current.popup.value.pausesGame {
      severity := "critical";
    }
    return [HudEvent(world, current, typ, severity, wake)];
  }

  method ReportSubtitle(previous: Hud, current: Hud, world: Snapshot) returns (events: seq<Event>)
    ensures events == SubtitleEvents(previous, current, world)
  {
    if previous.subtitle == current.subtitle || current.subtitle.None? {
      return [];
    }
    var severity, wake := "info", previous.subtitle.None?;
    if wake {
      severity := "notice";
    }
    return [HudEvent(world, current, "hud.subtitle", severity, wake)];
  }

  method DiffHudSnapshots(previous: Option<Hud>, current: Hud, world: Snapshot) returns (events: seq<Event>)
    ensures events == HudEvents(previous, current, world)
  {
    hide MessageEvents, PopupEvents, SubtitleEvents;
    if previous.None? {
      return [];
    }
    var messages := ReportMessages(previous.value, current, world);
    var popup := ReportPopup(previous.value, current, world);
    var subtitle := ReportSubtitle(previous.value, current, world);
    events := messages + popup + subtitle;
    if current.timersVisible && previous.value.timers != current.timers {
      events := events + [HudEvent(world, current, "hud.timer", "info", false)];
    }
  }
}
