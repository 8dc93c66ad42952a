/** The rewrites of the program's own registry, and why they keep out of each other's way. */
module MigrationRegistry {
  import opened Wrappers
  import opened Toml
  import opened Rewrites
  import opened RewriteMeaning
  import opened Migrations
  import opened MigrationFixpoint

  const RUNTIME := Exact(["runtime"])
  const VCS := Exact(["vcs"])
  const AGENT := Exact(["agent"])
  const PHASES := Exact(["phases"])
  const PROMPT := Exact(["prompt"])
  const MONITOR := Exact(["monitor"])
  const PLUGINS := Exact(["plugins"])
  const HOST_HEALTH := ["monitor", "host_health"]
  const DISK := ["monitor", "host_health", "disk"]
  const MEMORY := ["monitor", "host_health", "memory"]
  const PRESSURE := ["monitor", "host_health", "pressure"]

  const SOURCE_COUNT := 26

  /** The auto-fixing rewrites in registry order. */
  function Source(i: nat): Rewrite
    requires i < SOURCE_COUNT
  {
    match i
    case 0 => Rename("rate_limit_action", "transient_error_action", RUNTIME)
    case 1 => Rename("orphan_action", "dirty_action", VCS)
    case 2 => Rename("round_timeout_s", "round_budget_s", RUNTIME)
    case 3 => Rename("round_timeout_s", "round_budget_s", Phase)
    case 4 => Rename("round_timeout_s", "round_budget_s", PhaseSub("runtime"))
    case 5 => Drop("disable_pre_round_hooks", RUNTIME)
    case 6 => Drop("disable_pre_round_hooks", Phase)
    case 7 => Drop("disable_pre_round_hooks", PhaseSub("runtime"))
    case 8 => Wrap("command", AGENT, false, true)
    case 9 => Wrap("prompt_arg_template", AGENT, false, true)
    case 10 => Wrap("list", PHASES, false, false)
    case 11 => Wrap("files", PROMPT, false, false)
    case 12 => Wrap("auto_stop_on", MONITOR, false, false)
    case 13 => Wrap("disable", PLUGINS, false, false)
    case 14 => Wrap("command", PhaseSub("agent"), true, true)
    case 15 => Wrap("prompt_arg_template", PhaseSub("agent"), true, true)
    case 16 => Wrap("files", PhaseSub("prompt"), false, false)
    case 17 => Relocate("mem_avail_min_mb", "avail_min_mb", HOST_HEALTH, MEMORY)
    case 18 => Relocate("disk_warning_pct", "warning_pct", HOST_HEALTH, DISK)
    case 19 => Relocate("disk_critical_pct", "critical_pct", HOST_HEALTH, DISK)
    case 20 => Relocate("swap_sout_noise_floor_mb", "swap_out_noise_floor_mb", HOST_HEALTH, MEMORY)
    case 21 => Relocate("mem_free_low_mb", "free_low_mb", HOST_HEALTH, MEMORY)
    case 22 => Relocate("psi_full_avg10_critical", "full_avg10_critical", HOST_HEALTH, PRESSURE)
    case 23 => Relocate("psi_some_avg10_warning", "some_avg10_warning", HOST_HEALTH, PRESSURE)
    case 24 => Relocate("mem_critical_consecutive_samples", "critical_consecutive_samples", HOST_HEALTH, PRESSURE)
    case 25 => Relocate("in_round_mem_terminate", "in_round_terminate", HOST_HEALTH, PRESSURE)
  }

  /** The registry place of the rewrite that looks for `key` in `spec`, or -1. */
  function RankOf(spec: TableSpec, key: string): int {
    match spec
    case Phase => PhaseRank(key)
    case PhaseSub(leaf) => PhaseSubRank(leaf, key)
    case Exact(p) => if |p| == 1 then TopRank(p[0], key) else if p == HOST_HEALTH then HostRank(key) else -1
  }

  function PhaseRank(key: string): int {
    if key == "round_timeout_s" then 3 else if key == "disable_pre_round_hooks" then 6 else -1
  }

  function PhaseSubRank(leaf: string, key: string): int {
    if leaf == "runtime" then
      if key == "round_timeout_s" then 4 else if key == "disable_pre_round_hooks" then 7 else -1
    else if leaf == "agent" then
      if key == "command" then 14 else if key == "prompt_arg_template" then 15 else -1
    else if leaf == "prompt" && key == "files" then 16
    else -1
  }

  function TopRank(table: string, key: string): int {
    if table == "runtime" then
      if key == "rate_limit_action" then 0
      else if key == "round_timeout_s" then 2
      else if key == "disable_pre_round_hooks" then 5
      else -1
    else if table == "vcs" then if key == "orphan_action" then 1 else -1
    else if table == "agent" then
      if key == "command" then 8 else if key == "prompt_arg_template" then 9 else -1
    else if table == "phases" then if key == "list" then 10 else -1
    else if table == "prompt" then if key == "files" then 11 else -1
    else if table == "monitor" then if key == "auto_stop_on" then 12 else -1
    else if table == "plugins" then if key == "disable" then 13 else -1
    else -1
  }

  function HostRank(key: string): int {
    if key == "mem_avail_min_mb" then 17
    else if key == "disk_warning_pct" then 18
    else if key == "disk_critical_pct" then 19
    else if key == "swap_sout_noise_floor_mb" then 20
    else if key == "mem_free_low_mb" then 21
    else if key == "psi_full_avg10_critical" then 22
    else if key == "psi_some_avg10_warning" then 23
    else if key == "mem_critical_consecutive_samples" then 24
    else if key == "in_round_mem_terminate" then 25
    else -1
  }

  /** The tables named: one segment, `[monitor.host_health]`, or under `[phases]`. */
  predicate Formed(spec: TableSpec) {
    spec.Exact? ==> |spec.path| == 1 || spec.path == HOST_HEALTH
  }

  lemma SourceRank(i: nat)
    requires i < SOURCE_COUNT
    ensures RankOf(Source(i).Spec(), Source(i).key) == i && Formed(Source(i).Spec())
  {
    if i < 8 {
      assert "agent" != "runtime";
    } else if i < 17 {
    } else {
      HostRanks();
    }
  }

  lemma HostRanks()
    ensures HostRank("mem_avail_min_mb") == 17
    ensures HostRank("disk_warning_pct") == 18
    ensures HostRank("disk_critical_pct") == 19
    ensures HostRank("swap_sout_noise_floor_mb") == 20
    ensures HostRank("mem_free_low_mb") == 21
    ensures HostRank("psi_full_avg10_critical") == 22
    ensures HostRank("psi_some_avg10_warning") == 23
    ensures HostRank("mem_critical_consecutive_samples") == 24
    ensures HostRank("in_round_mem_terminate") == 25
  {
  }

  /** Two of these specs that match one section are the same spec. */
  lemma SpecsSeparate(a: TableSpec, b: TableSpec, section: Section)
    requires Formed(a) && Formed(b) && Matches(a, section) && Matches(b, section)
    ensures a == b
  {
  }

  /** Nothing looks for what a rename writes, in `[monitor.host_health.*]`, or for its sub-tables. */
  lemma SourceTargets(i: nat, s: Site)
    requires i < SOURCE_COUNT && (Target(Source(i), s) || (Source(i).Relocate? && Through(s, Source(i).to)))
    ensures forall spec :: Formed(spec) && Matches(spec, s.section) ==> RankOf(spec, s.key) == -1
  {
    forall spec | Formed(spec) && Matches(spec, s.section)
      ensures RankOf(spec, s.key) == -1
    {
      if i < 5 {
        SourceRank(i);
        SpecsSeparate(spec, Source(i).Spec(), s.section);
      } else {
        RelocateTargets(i, s, spec);
      }
    }
  }

  /** Under `[monitor]` only literal names are looked for, and below it only `[monitor.host_health]`. */
  lemma MonitorSpecs(spec: TableSpec, section: Section)
    requires Formed(spec) && Matches(spec, section) && section.path != [] && section.path[0] == "monitor"
    ensures spec == Exact(section.path) && (section.path == ["monitor"] || section.path == HOST_HEALTH)
  {
    assert "phases" != "monitor";
  }

  lemma RelocateTargets(i: nat, s: Site, spec: TableSpec)
    requires 5 <= i < SOURCE_COUNT && (Target(Source(i), s) || (Source(i).Relocate? && Through(s, Source(i).to)))
    requires Formed(spec) && Matches(spec, s.section)
    ensures RankOf(spec, s.key) == -1
  {
    var to := Source(i).to;
    assert to[0] == "monitor" && to[1] == "host_health" && |to| == 3;
    UnderMonitor(to, s);
    if s.section.path != [] {
      MonitorSpecs(spec, s.section);
      BelowMonitor(to, s);
    }
  }

  lemma UnderMonitor(to: Path, s: Site)
    requires s.section.Table? && |to| == 3 && to[0] == "monitor"
    requires s.section.path == to || s.section.path + [s.key] <= to
    ensures s.section.path == [] || s.section.path[0] == "monitor"
  {
    if s.section.path != to && s.section.path != [] {
      assert (s.section.path + [s.key])[0] == s.section.path[0];
    }
  }

  /** The sub-tables' names are no keys anyone looks for. */
  lemma BelowMonitor(to: Path, s: Site)
    requires s.section.Table? && |to| == 3 && to[1] == "host_health" && to[2] in ["memory", "disk", "pressure"]
    requires s.section.path == to || s.section.path + [s.key] <= to
    requires s.section.path == ["monitor"] || s.section.path == HOST_HEALTH
    ensures RankOf(Exact(s.section.path), s.key) == -1
  {
    var n := |s.section.path|;
    assert (s.section.path + [s.key])[n] == s.key;
    if n == 1 {
      assert s.key == "host_health";
    } else {
      assert s.key == to[2];
    }
  }

  lemma SlotsApart(i: nat, j: nat, s: Site)
    requires i < SOURCE_COUNT && j < SOURCE_COUNT && Slot(Source(i), s) && Slot(Source(j), s)
    ensures i == j
  {
    SourceRank(i);
    SourceRank(j);
    SpecsSeparate(Source(i).Spec(), Source(j).Spec(), s.section);
  }

  lemma TargetsFree(i: nat, j: nat, s: Site)
    requires i < SOURCE_COUNT && j < SOURCE_COUNT && (Target(Source(i), s) || (Source(i).Relocate? && Through(s, Source(i).to)))
    ensures !Slot(Source(j), s)
  {
    SourceRank(j);
    SourceTargets(i, s);
  }

  lemma SourceProper(i: nat)
    requires i < SOURCE_COUNT
    ensures Source(i).Proper()
  {
  }

  lemma SourceApart(i: nat, j: nat)
    requires i < SOURCE_COUNT && j < SOURCE_COUNT
    ensures Apart(Source(i), Source(j)) && Source(i).Proper() && (i != j ==> Source(i) != Source(j))
  {
    SourceProper(i);
    SourceRank(i);
    SourceRank(j);
    forall s | Slot(Source(i), s) && Slot(Source(j), s)
      ensures i == j
    {
      SlotsApart(i, j, s);
    }
    forall s | Target(Source(i), s) || (Source(i).Relocate? && Through(s, Source(i).to))
      ensures !Slot(Source(j), s)
    {
      TargetsFree(i, j, s);
    }
  }

  /** `ms` is the program's registry with any report-only entries between the rewrites. */
  ghost predicate FromSource(ms: seq<Migration>) {
    && (forall k :: 0 <= k < |ms| && ms[k].Auto? ==> exists i: nat :: i < SOURCE_COUNT && ms[k].rewrite == Source(i))
    && (forall k, l :: 0 <= k < l < |ms| && ms[k].Auto? && ms[l].Auto? ==> ms[k].rewrite != ms[l].rewrite)
    && (forall i :: 0 <= i < |ms| && ms[i].Manual? ==>
          forall d, v :: ms[i].detect(Restamp(d, v)) == ms[i].detect(d) && ms[i].report(Restamp(d, v)) == ms[i].report(d))
  }

  lemma RegistryApart(ms: seq<Migration>, k: nat, l: nat)
    requires FromSource(ms) && k < |ms| && l < |ms| && ms[k].Auto? && ms[l].Auto?
    ensures Apart(ms[k].rewrite, ms[l].rewrite) && ms[k].rewrite.Proper()
  {
    var i: nat :| i < SOURCE_COUNT && ms[k].rewrite == Source(i);
    var j: nat :| j < SOURCE_COUNT && ms[l].rewrite == Source(j);
    SourceApart(i, j);
  }

  lemma OpensElsewhere(i: nat)
    requires i < SOURCE_COUNT && Source(i).Relocate?
    ensures !([VERSION_KEY] <= Source(i).to)
  {
    assert Source(i).to[0] == "monitor";
    assert VERSION_KEY[0] == 's';
  }

  /** So the theorems about a disciplined registry hold of the program's. */
  lemma SourceIsDisciplined(ms: seq<Migration>)
    requires FromSource(ms)
    ensures Disciplined(ms) && LeavesVersionAlone(ms)
  {
    forall k, l | 0 <= k < |ms| && 0 <= l < |ms| && ms[k].Auto? && ms[l].Auto?
      ensures Apart(ms[k].rewrite, ms[l].rewrite) && ms[k].rewrite.Proper()
    {
      RegistryApart(ms, k, l);
    }
    forall k | 0 <= k < |ms| && ms[k].Auto? && ms[k].rewrite.Relocate?
      ensures !([VERSION_KEY] <= ms[k].rewrite.to)
    {
      var i: nat :| i < SOURCE_COUNT && ms[k].rewrite == Source(i);
      OpensElsewhere(i);
    }
  }
}
