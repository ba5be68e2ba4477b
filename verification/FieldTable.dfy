/** The field table of internal/report/fields.go: declared severities, restated fields and
    the rules that count a field. */
module FieldTable {
  datatype Severity = Critical | Warning | Info | OtherSeverity(name: string)

  /** util.SeverityRank. */
  function Rank(s: Severity): nat {
    match s
    case Critical => 3
    case Warning => 2
    case Info => 1
    case OtherSeverity(_) => 0
  }

  /** One field of one scanner's data. */
  datatype FieldRef = FieldRef(scanner: string, field: string)

  /** The declared severity, info when the table declares none. */
  function Declared(f: FieldRef): (s: Severity)
    ensures s in {Critical, Warning, Info}
  {
    match f.scanner
    case "metrics" =>
      if f.field in ["avg_cpu_percent", "avg_memory_percent", "max_cpu_percent", "max_memory_percent"] then Warning
      else Info
    case "node-health" =>
      if f.field in ["unhealthy_nodes", "memory_pressure_nodes", "not_ready_nodes"] then Critical
      else if f.field in ["disk_pressure_nodes", "pid_pressure_nodes", "unschedulable_nodes"] then Warning
      else Info
    case "security" => if f.field in ["enforced_count", "unenforced_count"] then Critical else Info
    case "network-policies" => if f.field == "namespaces_without_policies" then Critical else Info
    case "resources" => if f.field in ["unschedulable_nodes", "node_count", "ready_nodes"] then Warning else Info
    case "workload-security" =>
      if f.field in ["privileged_containers", "host_network_pods", "host_pid_pods"] then Critical
      else if f.field in ["run_as_root_containers", "capability_additions", "allow_privilege_escalation"] then Warning
      else Info
    case "rbac-audit" =>
      if f.field in ["cluster_admin_bindings", "wildcard_rules"] then Critical
      else if f.field == "default_sa_bindings" then Warning
      else Info
    case "version" => if f.field in ["git_version", "minor"] then Warning else Info
    case "namespaces" => if f.field == "count" then Warning else Info
    case "services" => if f.field == "count" then Warning else Info
    case "crds" => if f.field == "crd_names" then Warning else Info
    case "rbac" => if f.field in ["cluster_role_count", "cluster_role_binding_count"] then Warning else Info
    case "resource-quotas" => if f.field in ["quota_count", "namespaces_with_quotas"] then Warning else Info
    case "image-audit" => if f.field in ["latest_tag", "no_digest"] then Warning else Info
    case "vulnerabilities" => if f.field == "critical" then Warning else Info
    case "policy-reports" => if f.field == "total_fail" then Warning else Info
    case _ => Info
  }

  /** The fields whose findings already state this field's fact, in table order. */
  function RedundantWith(f: FieldRef): seq<FieldRef> {
    if f == FieldRef("metrics", "nodes_with_usage") then
      [FieldRef("metrics", "node_count")]
    else if f == FieldRef("node-health", "unhealthy_nodes") then
      [FieldRef("node-health", "memory_pressure_nodes"), FieldRef("node-health", "disk_pressure_nodes"),
       FieldRef("node-health", "pid_pressure_nodes"), FieldRef("node-health", "not_ready_nodes")]
    else if f == FieldRef("certs", "soonest_days") then
      [FieldRef("certs", "warning"), FieldRef("certs", "critical")]
    else if f == FieldRef("workload-security", "run_as_non_root_containers") then
      [FieldRef("workload-security", "baseline_containers")]
    else if f == FieldRef("workload-security", "baseline_containers") then
      [FieldRef("workload-security", "total_pods")]
    else if f == FieldRef("version", "minor") then
      [FieldRef("version", "git_version")]
    else if f == FieldRef("deprecated-apis", "server_version") then
      [FieldRef("version", "git_version")]
    else if f == FieldRef("cluster-info", "kubelet_versions") then
      [FieldRef("version", "git_version")]
    else []
  }

  /** The absolute rule that counts the field, empty when none does. */
  function CountedBy(f: FieldRef): string {
    match f.scanner
    case "node-health" =>
      if f.field == "memory_pressure_nodes" then "node-health/memory-pressure"
      else if f.field == "not_ready_nodes" then "node-health/not-ready"
      else if f.field == "disk_pressure_nodes" then "node-health/disk-pressure"
      else ""
    case "events" => if f.field == "warning_events" then "events/warning-volume" else ""
    case "certs" =>
      if f.field == "critical" then "certs/expiring-7d"
      else if f.field == "warning" then "certs/expiring-30d"
      else ""
    case "security" => if f.field == "unenforced_count" then "security/psa-unenforced" else ""
    case "network-policies" => if f.field == "namespaces_without_policies" then "network-policies/no-policy" else ""
    case "workload-security" =>
      if f.field == "privileged_containers" then "workload-security/privileged"
      else if f.field == "host_network_pods" then "workload-security/host-namespaces"
      else if f.field == "host_pid_pods" then "workload-security/host-namespaces"
      else if f.field == "run_as_root_containers" then "workload-security/run-as-root"
      else if f.field == "capability_additions" then "workload-security/capability-add"
      else ""
    case "rbac-audit" =>
      if f.field == "cluster_admin_bindings" then "rbac-audit/cluster-admin-binding"
      else if f.field == "wildcard_rules" then "rbac-audit/wildcard-rule"
      else if f.field == "default_sa_bindings" then "rbac-audit/default-sa-binding"
      else ""
    case "deprecated-apis" => if f.field == "total_instances" then "deprecated-apis/in-use" else ""
    case "resource-quotas" => if f.field == "namespaces_with_quotas" then "resource-quotas/no-quota" else ""
    case "image-audit" =>
      if f.field == "latest_tag" then "image-audit/latest-tag"
      else if f.field == "no_digest" then "image-audit/no-digest"
      else ""
    case "vulnerabilities" => if f.field == "critical" then "vulnerabilities/critical-present" else ""
    case "workload-coverage" =>
      if f.field == "missing_pdb" then "workload-coverage/missing-pdb"
      else if f.field == "missing_hpa" then "workload-coverage/missing-hpa"
      else ""
    case "admission" => if f.field == "unhealthy_webhooks" then "admission/no-healthy-endpoints" else ""
    case _ => ""
  }

  /** How long a chain of restated fields can get from f. */
  function Depth(f: FieldRef): nat {
    if f == FieldRef("workload-security", "run_as_non_root_containers") then 2
    else if RedundantWith(f) == [] then 0
    else 1
  }

  /** The table has no cycle: a restated field is nearer the end of every chain. */
  lemma RestatedIsShallower(f: FieldRef, t: FieldRef)
    requires t in RedundantWith(f)
    ensures Depth(t) < Depth(f)
  {
  }

  /** The fields that restate others. */
  lemma Restaters(f: FieldRef)
    requires RedundantWith(f) != []
    ensures f == FieldRef("node-health", "unhealthy_nodes") || f == FieldRef("version", "minor") || f in INFO_RESTATERS
  {
  }

  const INFO_RESTATERS := [
    FieldRef("metrics", "nodes_with_usage"), FieldRef("certs", "soonest_days"),
    FieldRef("workload-security", "run_as_non_root_containers"), FieldRef("workload-security", "baseline_containers"),
    FieldRef("deprecated-apis", "server_version"), FieldRef("cluster-info", "kubelet_versions")]

  lemma DeclaredInfo(f: FieldRef)
    requires f in INFO_RESTATERS
    ensures Declared(f) == Info
  {
    if f in INFO_RESTATERS[..2] {
    } else if f in INFO_RESTATERS[2..4] {
    } else {
      assert f in INFO_RESTATERS[4..];
    }
  }

  /** The fields declared above info that restate others. */
  lemma SevereRestaters(f: FieldRef)
    requires RedundantWith(f) != [] && Rank(Declared(f)) > Rank(Info)
    ensures f == FieldRef("node-health", "unhealthy_nodes") || f == FieldRef("version", "minor")
  {
    hide RedundantWith, Declared;
    Restaters(f);
    if f in INFO_RESTATERS { DeclaredInfo(f); }
  }

  /** A field declared above info is only restated by fields that restate nothing. */
  lemma SevereRestatesLeaves(f: FieldRef, t: FieldRef)
    requires t in RedundantWith(f) && Rank(Declared(f)) > Rank(Info)
    ensures RedundantWith(t) == []
  {
    hide Declared;
    SevereRestaters(f);
  }

  // ----- Which fields a rule counts

  const HOST_NAMESPACES := "workload-security/host-namespaces"
  const HOST_NETWORK := FieldRef("workload-security", "host_network_pods")
  const HOST_PID := FieldRef("workload-security", "host_pid_pods")

  /** The field a rule counts, the first in the table. */
  function CountedField(rule: string): FieldRef {
    match rule
    case "node-health/memory-pressure" => FieldRef("node-health", "memory_pressure_nodes")
    case "node-health/not-ready" => FieldRef("node-health", "not_ready_nodes")
    case "node-health/disk-pressure" => FieldRef("node-health", "disk_pressure_nodes")
    case "events/warning-volume" => FieldRef("events", "warning_events")
    case "certs/expiring-7d" => FieldRef("certs", "critical")
    case "certs/expiring-30d" => FieldRef("certs", "warning")
    case "security/psa-unenforced" => FieldRef("security", "unenforced_count")
    case "network-policies/no-policy" => FieldRef("network-policies", "namespaces_without_policies")
    case "workload-security/privileged" => FieldRef("workload-security", "privileged_containers")
    case "workload-security/host-namespaces" => HOST_NETWORK
    case "workload-security/run-as-root" => FieldRef("workload-security", "run_as_root_containers")
    case "workload-security/capability-add" => FieldRef("workload-security", "capability_additions")
    case "rbac-audit/cluster-admin-binding" => FieldRef("rbac-audit", "cluster_admin_bindings")
    case "rbac-audit/wildcard-rule" => FieldRef("rbac-audit", "wildcard_rules")
    case "rbac-audit/default-sa-binding" => FieldRef("rbac-audit", "default_sa_bindings")
    case "deprecated-apis/in-use" => FieldRef("deprecated-apis", "total_instances")
    case "resource-quotas/no-quota" => FieldRef("resource-quotas", "namespaces_with_quotas")
    case "image-audit/latest-tag" => FieldRef("image-audit", "latest_tag")
    case "image-audit/no-digest" => FieldRef("image-audit", "no_digest")
    case "vulnerabilities/critical-present" => FieldRef("vulnerabilities", "critical")
    case "workload-coverage/missing-pdb" => FieldRef("workload-coverage", "missing_pdb")
    case "workload-coverage/missing-hpa" => FieldRef("workload-coverage", "missing_hpa")
    case _ => FieldRef("admission", "unhealthy_webhooks")
  }

  lemma CountedFieldIs(f: FieldRef)
    requires CountedBy(f) != ""
    ensures f == HOST_PID || f == CountedField(CountedBy(f))
  {
    hide CountedField;
    if f.scanner == "node-health" && f.field == "memory_pressure_nodes" {
      MemoryFieldIs(f);
    } else if f.scanner == "node-health" {
      NodeFieldIs(f);
    } else if f.scanner in ["certs", "events"] {
      CertFieldIs(f);
    } else if f.scanner in ["security", "network-policies"] {
      NetworkFieldIs(f);
    } else if f.scanner == "workload-security" && f.field in ["host_network_pods", "host_pid_pods"] {
      HostFieldIs(f);
    } else if f.scanner == "workload-security" && f.field in ["privileged_containers", "run_as_root_containers"] {
      PrivilegeFieldIs(f);
    } else if f.scanner == "workload-security" {
      CapabilityFieldIs(f);
    } else if f.scanner == "rbac-audit" && f.field == "cluster_admin_bindings" {
      AdminFieldIs(f);
    } else if f.scanner == "rbac-audit" {
      BindingFieldIs(f);
    } else if f.scanner in ["deprecated-apis", "resource-quotas"] {
      QuotaFieldIs(f);
    } else if f.scanner == "image-audit" {
      ImageFieldIs(f);
    } else if f.scanner == "workload-coverage" && f.field == "missing_pdb" {
      BudgetFieldIs(f);
    } else if f.scanner == "workload-coverage" {
      ScalerFieldIs(f);
    } else {
      HookFieldIs(f);
    }
  }

  lemma MemoryFieldIs(f: FieldRef)
    requires f.scanner == "node-health" && CountedBy(f) != ""
    requires f.field == "memory_pressure_nodes"
    ensures f == CountedField(CountedBy(f))
  {
  }

  lemma NodeFieldIs(f: FieldRef)
    requires f.scanner == "node-health" && CountedBy(f) != ""
    requires f.field != "memory_pressure_nodes"
    ensures f == CountedField(CountedBy(f))
  {
  }

  lemma CertFieldIs(f: FieldRef)
    requires f.scanner in ["certs", "events"] && CountedBy(f) != ""
    ensures f == CountedField(CountedBy(f))
  {
  }

  lemma NetworkFieldIs(f: FieldRef)
    requires f.scanner in ["security", "network-policies"] && CountedBy(f) != ""
    ensures f == CountedField(CountedBy(f))
  {
  }

  lemma HostFieldIs(f: FieldRef)
    requires f.scanner == "workload-security" && CountedBy(f) != ""
    requires f.field in ["host_network_pods", "host_pid_pods"]
    ensures f == HOST_PID || f == CountedField(CountedBy(f))
  {
  }

  lemma PrivilegeFieldIs(f: FieldRef)
    requires f.scanner == "workload-security" && CountedBy(f) != ""
    requires f.field in ["privileged_containers", "run_as_root_containers"]
    ensures f == CountedField(CountedBy(f))
  {
  }

  lemma CapabilityFieldIs(f: FieldRef)
    requires f.scanner == "workload-security" && CountedBy(f) != ""
    requires f.field !in ["host_network_pods", "host_pid_pods", "privileged_containers", "run_as_root_containers"]
    ensures f == CountedField(CountedBy(f))
  {
  }

  lemma AdminFieldIs(f: FieldRef)
    requires f.scanner == "rbac-audit" && CountedBy(f) != ""
    requires f.field == "cluster_admin_bindings"
    ensures f == CountedField(CountedBy(f))
  {
  }

  lemma BindingFieldIs(f: FieldRef)
    requires f.scanner == "rbac-audit" && CountedBy(f) != ""
    requires f.field != "cluster_admin_bindings"
    ensures f == CountedField(CountedBy(f))
  {
  }

  lemma QuotaFieldIs(f: FieldRef)
    requires f.scanner in ["deprecated-apis", "resource-quotas"] && CountedBy(f) != ""
    ensures f == CountedField(CountedBy(f))
  {
  }

  lemma ImageFieldIs(f: FieldRef)
    requires f.scanner == "image-audit" && CountedBy(f) != ""
    ensures f == CountedField(CountedBy(f))
  {
  }

  lemma BudgetFieldIs(f: FieldRef)
    requires f.scanner == "workload-coverage" && CountedBy(f) != ""
    requires f.field == "missing_pdb"
    ensures f == CountedField(CountedBy(f))
  {
  }

  lemma ScalerFieldIs(f: FieldRef)
    requires f.scanner == "workload-coverage" && CountedBy(f) != ""
    requires f.field != "missing_pdb"
    ensures f == CountedField(CountedBy(f))
  {
    assert f.field == "missing_hpa" && CountedBy(f) == "workload-coverage/missing-hpa" by {
      hide CountedField;
    }
    hide CountedBy;
  }

  lemma HookFieldIs(f: FieldRef)
    requires f.scanner in ["vulnerabilities", "admission"] && CountedBy(f) != ""
    ensures f == CountedField(CountedBy(f))
  {
  }

  /** A rule counts one field, but for the rule on host namespaces, which counts two. */
  lemma CountedOnce(f: FieldRef, g: FieldRef)
    requires CountedBy(f) == CountedBy(g) != ""
    ensures f == g || {f, g} == {HOST_NETWORK, HOST_PID}
  {
    CountedFieldIs(f);
    CountedFieldIs(g);
    assert CountedBy(HOST_PID) == HOST_NAMESPACES && CountedField(HOST_NAMESPACES) == HOST_NETWORK;
    hide CountedBy, CountedField;
  }
}
