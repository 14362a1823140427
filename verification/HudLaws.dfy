/** When the comparison of two HUD snapshots reports what (AgentBridge/events.go:553-617). */
module HudLaws {
  import opened Common
  import opened TacticalEvents
  import opened SnapshotDiff
  import opened HudDiff

  /** What the HUD shows that it did not show before. */
  predicate HudChanged(typ: string, previous: Hud, current: Hud) {
    || (typ == "hud.message" && exists m :: m in current.messages && m !in previous.messages)
    || (typ == "hud.popup" && current.popup.Some? && current.popup != previous.popup)
    || (typ == "hud.popupClosed" && current.popup.None? && previous.popup.Some?)
    || (typ == "hud.subtitle" && current.subtitle.Some? && current.subtitle != previous.subtitle)
    || (typ == "hud.timer" && current.timersVisible && current.timers != previous.timers)
  }

  /** A popup that stops the game is critical; what opens is worth a notice, the rest is information. */
  predicate HudSeverity(typ: string, previous: Hud, current: Hud, severity: string) {
    if typ == "hud.popup" && current.popup.Some? && current.popup.value.pausesGame then severity == "critical"
    else if typ == "hud.message" || typ == "hud.popup" || (typ == "hud.subtitle" && previous.subtitle.None?)
      then severity == "notice"
    else severity == "info"
  }

  /** Only information does not wake. */
  predicate HudTells(previous: Hud, current: Hud, world: Snapshot, e: Event) {
    && HudChanged(e.typ, previous, current) && HudSeverity(e.typ, previous, current, e.severity)
    && (e.wake <==> e.severity != "info")
    && e.frame == (if current.frame == 0 then world.frame else current.frame) && e.snapshotId == world.snapshotId
    && e.cursor == 0 && e.relationship == "" && e.objectIds == [] && e.area == None
  }

  lemma MessagesTell(previous: Hud, current: Hud, world: Snapshot, e: Event)
    ensures e in MessageEvents(previous, current, world) <==>
            e.typ == "hud.message" && HudTells(previous, current, world, e)
  {
  }

  lemma PopupsTell(previous: Hud, current: Hud, world: Snapshot, e: Event)
    ensures e in PopupEvents(previous, current, world) <==>
            (e.typ == "hud.popup" || e.typ == "hud.popupClosed") && HudTells(previous, current, world, e)
  {
  }

  lemma SubtitlesTell(previous: Hud, current: Hud, world: Snapshot, e: Event)
    ensures e in SubtitleEvents(previous, current, world) <==>
            e.typ == "hud.subtitle" && HudTells(previous, current, world, e)
  {
  }

  lemma TimersTell(previous: Hud, current: Hud, world: Snapshot, e: Event)
    ensures e in TimerEvents(previous, current, world) <==>
            e.typ == "hud.timer" && HudTells(previous, current, world, e)
  {
  }

  /** An event is reported exactly when it tells of something that the HUD shows and did not show before. */
  lemma HudEventsTellOfChanges(previous: Hud, current: Hud, world: Snapshot, e: Event)
    ensures e in HudEvents(Some(previous), current, world) <==> HudTells(previous, current, world, e)
    ensures HudEvents(None, current, world) == []
  {
    hide MessageEvents, PopupEvents, SubtitleEvents, TimerEvents, HudSeverity;
    MessagesTell(previous, current, world, e);
    PopupsTell(previous, current, world, e);
    SubtitlesTell(previous, current, world, e);
    TimersTell(previous, current, world, e);
  }
}
