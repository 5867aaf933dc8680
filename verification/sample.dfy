/** A small configuration and a report, for concrete runs. */
module Sample {
  import opened Base
  import opened Models
  import opened Configuration
  import opened Store
  import opened Report
  import opened Absent

  const FREQUENCY: Time := 60 * SECOND
  const SUB: SubComponent := SubComponent("s", Some(Monitoring(Some(FREQUENCY), ABSENT_CREATOR, false)), false)
  const CONFIG: Config := Config([Component("c", [SUB], ["account"])])
  const DOWN: ReportStatus := ReportStatus("c", "s", StatusDown, [Reason(CheckHTTP, "", "")])

  function Calm(now: Time): Env {
    Env(now, false, false, [], map[], None)
  }

  lemma Configured()
    ensures FindComponent(CONFIG.components, "c") == Some(CONFIG.components[0])
    ensures FindSub(CONFIG.components[0].subs, "s") == Some(SUB)
    ensures Targets(CONFIG.components) == [Target("c", SUB)]
  {
    var shorter := CONFIG.components[..0];
    assert shorter == [] && Targets(shorter) == [];
    TargetsSnoc(CONFIG.components);
    assert SubTargets("c", [SUB]) == [Target("c", SUB)];
  }
}
