/** The pod settings admission asks about, with Kubernetes precedence: internal/podsec/podsec.go. */
module PodSecurity {
  import opened Wrappers

  /** A container's own security settings; every field may be unset. */
  datatype SecurityContext = SecurityContext(runAsNonRoot: Option<bool>, runAsUser: Option<int>,
                                             allowPrivilegeEscalation: Option<bool>, privileged: Option<bool>,
                                             addedCapabilities: seq<string>, readOnlyRootFilesystem: Option<bool>)

  datatype PodContext = PodContext(runAsNonRoot: Option<bool>, runAsUser: Option<int>)

  datatype Container = Container(name: string, image: string, context: Option<SecurityContext>)

  datatype Pod = Pod(context: Option<PodContext>, initContainers: seq<Container>, containers: seq<Container>,
                     serviceAccountName: string, dryRun: bool)

  datatype RootStatus = Root | NonRoot | Unknown

  /** The container's setting when it has one, else the pod's. */
  function RunAsNonRoot(pod: Pod, c: Container): Option<bool> {
    if c.context.Some? && c.context.value.runAsNonRoot.Some? then c.context.value.runAsNonRoot
    else if pod.context.Some? then pod.context.value.runAsNonRoot
    else None
  }

  function RunAsUser(pod: Pod, c: Container): Option<int> {
    if c.context.Some? && c.context.value.runAsUser.Some? then c.context.value.runAsUser
    else if pod.context.Some? then pod.context.value.runAsUser
    else None
  }

  function StatusOf(pod: Pod, c: Container): RootStatus {
    var uid := RunAsUser(pod, c);
    if uid == Some(0) then Root
    else if RunAsNonRoot(pod, c) == Some(true) then NonRoot
    else if uid.Some? && uid.value > 0 then NonRoot
    else Unknown
  }

  function Upper(s: string): string {
    if s == "" then ""
    else [if 'a' <= s[0] <= 'z' then (s[0] as int - 32) as char else s[0]] + Upper(s[1..])
  }

  function TrimCap(s: string): string {
    if "CAP_" <= s then s[4..] else s
  }

  /** The capability makes the container privileged whatever it says. */
  predicate GrantsAdmin(capability: string) {
    TrimCap(Upper(capability)) in ["SYS_ADMIN", "ALL"]
  }

  predicate AllowsPrivilegeEscalation(c: Container) {
    c.context.None?
    || c.context.value.allowPrivilegeEscalation.None?
    || c.context.value.privileged == Some(true)
    || (exists a :: a in c.context.value.addedCapabilities && GrantsAdmin(a))
    || c.context.value.allowPrivilegeEscalation.value
  }

  predicate ReadOnlyRootFS(c: Container) {
    c.context.Some? && c.context.value.readOnlyRootFilesystem == Some(true)
  }

  /** The containers admission sees. */
  function Admitted(pod: Pod): seq<Container> {
    pod.initContainers + pod.containers
  }

  /** sub stands somewhere in s. */
  predicate Contains(s: string, sub: string) {
    sub <= s || (s != "" && Contains(s[1..], sub))
  }

  // ----- What the settings mean

  /** The container's own settings win over the pod's, and the pod's apply where it has none. */
  lemma ContainerWins(pod: Pod, c: Container)
    ensures c.context.Some? && c.context.value.runAsNonRoot.Some? ==>
              RunAsNonRoot(pod, c) == c.context.value.runAsNonRoot
    ensures c.context.Some? && c.context.value.runAsUser.Some? ==> RunAsUser(pod, c) == c.context.value.runAsUser
    ensures (c.context.None? || c.context.value.runAsNonRoot.None?) && pod.context.Some? ==>
              RunAsNonRoot(pod, c) == pod.context.value.runAsNonRoot
    ensures (c.context.None? || c.context.value.runAsUser.None?) && pod.context.Some? ==>
              RunAsUser(pod, c) == pod.context.value.runAsUser
    ensures c.context.None? && pod.context.None? ==> RunAsNonRoot(pod, c) == None && RunAsUser(pod, c) == None
  {
  }

  /** A container that sets both has the same status in every pod: root exactly when its user is 0, and else not root
      exactly when it says so or its user is above 0. */
  lemma OwnStatus(pod: Pod, c: Container, uid: int, nonRoot: bool)
    requires c.context.Some? && c.context.value.runAsUser == Some(uid) && c.context.value.runAsNonRoot == Some(nonRoot)
    ensures StatusOf(pod, c) == Root <==> uid == 0
    ensures StatusOf(pod, c) == NonRoot <==> uid > 0 || (uid < 0 && nonRoot)
  {
  }

  /** Where nothing names a user, a container is known not to be root exactly when the effective setting says so. */
  lemma NoUserStatus(pod: Pod, c: Container)
    requires RunAsUser(pod, c) == None
    ensures StatusOf(pod, c) == if RunAsNonRoot(pod, c) == Some(true) then NonRoot else Unknown
  {
  }

  /** A container cannot gain privileges exactly when it says so, is not privileged and adds no capability that
      makes it so. */
  lemma CannotEscalate(c: Container)
    ensures !AllowsPrivilegeEscalation(c) <==>
            && c.context.Some? && c.context.value.allowPrivilegeEscalation == Some(false)
            && c.context.value.privileged != Some(true)
            && forall a :: a in c.context.value.addedCapabilities ==> !GrantsAdmin(a)
  {
  }

  /** s is t up to the case of ASCII letters. */
  ghost predicate SameLetters(s: string, t: string) {
    |s| == |t| && forall i :: 0 <= i < |s| ==> s[i] == t[i] || ('A' <= t[i] <= 'Z' && s[i] as int == t[i] as int + 32)
  }

  lemma {:induction false} UpperSame(s: string, t: string)
    requires forall i :: 0 <= i < |t| ==> !('a' <= t[i] <= 'z')
    ensures Upper(s) == t <==> SameLetters(s, t)
  {
    if s != "" && t != "" {
      UpperSame(s[1..], t[1..]);
      assert Upper(s) == t <==> Upper(s)[0] == t[0] && Upper(s)[1..] == t[1..];
    }
  }

  lemma Trimmed(s: string, name: string)
    requires name != "" && name[0] != 'C'
    ensures TrimCap(s) == name <==> s == name || s == "CAP_" + name
  {
  }

  /** Two capabilities grant it, in any case and with or without the prefix, and no other. */
  lemma AdminNames(capability: string)
    ensures GrantsAdmin(capability) <==>
              SameLetters(capability, "SYS_ADMIN") || SameLetters(capability, "CAP_SYS_ADMIN")
              || SameLetters(capability, "ALL") || SameLetters(capability, "CAP_ALL")
  {
    UpperSame(capability, "SYS_ADMIN");
    UpperSame(capability, "CAP_SYS_ADMIN");
    UpperSame(capability, "ALL");
    UpperSame(capability, "CAP_ALL");
    Trimmed(Upper(capability), "SYS_ADMIN");
    Trimmed(Upper(capability), "ALL");
  }

  lemma AtTheStart(s: string, left: string, sub: string, right: string)
    requires s == left + sub + right
    ensures sub <= s || left != ""
  {
    if left == "" {
      assert s[..|sub|] == sub;
    }
  }

  /** sub stands in s exactly when s is something, then sub, then something. */
  lemma {:induction false} ContainsMeans(s: string, sub: string)
    ensures Contains(s, sub) <==> exists left, right :: s == left + sub + right
  {
    if sub <= s {
      assert s == [] + sub + s[|sub|..];
    } else {
      if s != "" {
        ContainsMeans(s[1..], sub);
        if left, right :| s[1..] == left + sub + right {
          assert s == ([s[0]] + left) + sub + right;
        }
      }
      if left, right :| s == left + sub + right {
        AtTheStart(s, left, sub, right);
        assert s[1..] == left[1..] + sub + right;
      }
    }
  }
}
