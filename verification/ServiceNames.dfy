/** Container names for the services of a job's Pod. */
module ServiceNames {
  import opened Basics

  const JOB_CONTAINER_NAME := "job"
  const MAX_CONTAINER_NAME := 63

  /** No list is longer than Go's int can count. */
  const MAX_LENGTH := 0x7FFF_FFFF_FFFF_FFFF

  // ---------------------------------------------------------------- labels

  predicate IsAlphanumeric(c: char) {
    'a' <= c <= 'z' || '0' <= c <= '9'
  }

  predicate IsLabelChar(c: char) {
    IsAlphanumeric(c) || c == '-'
  }

  /** A label in the sense of section 2.1 of RFC 1123. */
  predicate IsLabel(s: string) {
    && 1 <= |s| <= 63
    && (forall i | 0 <= i < |s| :: IsLabelChar(s[i]))
    && IsAlphanumeric(s[0]) && IsAlphanumeric(s[|s| - 1])
  }

  // ---------------------------------------------------------------- names

  /** Lower case, for the characters whose lower case may stand in a label. */
  function Lower(c: char): char {
    if 'A' <= c <= 'Z' then c + 32 as char
    else if c == '\U{0130}' then 'i'
    else if c == '\U{212A}' then 'k'
    else c
  }

  /** Characters that may not stand in a label become dashes. */
  function Sanitize(id: string): (s: string)
    ensures |s| == |id| && forall i | 0 <= i < |s| :: IsLabelChar(s[i])
  {
    seq(|id|, i requires 0 <= i < |id| => if IsLabelChar(Lower(id[i])) then Lower(id[i]) else '-')
  }

  function TrimDashesRight(s: string): (t: string)
    ensures t <= s && (t != "" ==> t[|t| - 1] != '-')
    ensures forall i | |t| <= i < |s| :: s[i] == '-'
  {
    if s != "" && s[|s| - 1] == '-' then TrimDashesRight(s[..|s| - 1]) else s
  }

  function TrimDashesLeft(s: string): (t: string)
    ensures |t| <= |s| && t == s[|s| - |t|..] && (t != "" ==> t[0] != '-')
  {
    if s != "" && s[0] == '-' then TrimDashesLeft(s[1..]) else s
  }

  /** Caps a name at the label limit less `reserve`, and never ends it on a dash. */
  function TrimContainerName(name: string, reserve: nat): string
    requires reserve <= MAX_CONTAINER_NAME
  {
    var limit := MAX_CONTAINER_NAME - reserve;
    TrimDashesRight(if |name| > limit then name[..limit] else name)
  }

  function ServiceContainerName(id: string): string {
    var trimmed := TrimDashesRight(TrimDashesLeft(Sanitize(id)));
    var name := if trimmed == "" then "service" else trimmed;
    TrimContainerName("svc-" + name, 0)
  }

  /** The n-th name to try for a base that is taken. */
  function Candidate(base: string, n: nat): string
    requires n <= MAX_LENGTH + 3
  {
    DecimalShort(n);
    var suffix := "-" + Decimal(n);
    TrimContainerName(base, |suffix|) + suffix
  }

  function Pow10(k: nat): nat {
    if k == 0 then 1 else 10 * Pow10(k - 1)
  }

  lemma {:induction false} DecimalLength(n: nat, k: nat)
    requires k >= 1 && n < Pow10(k)
    ensures |Decimal(n)| <= k
  {
    if n >= 10 {
      DecimalLength(n / 10, k - 1);
    }
  }

  lemma DecimalShort(n: nat)
    requires n <= MAX_LENGTH + 3
    ensures |Decimal(n)| <= 19
  {
    assert Pow10(5) == 100000;
    assert Pow10(10) == 10000000000 by { assert Pow10(7) == 10000000; assert Pow10(9) == 1000000000; }
    assert Pow10(15) == 1000000000000000 by { assert Pow10(12) == 1000000000000; assert Pow10(14) == 100000000000000; }
    assert Pow10(19) == 10000000000000000000 by { assert Pow10(17) == 100000000000000000; }
    DecimalLength(n, 19);
  }

  // ---------------------------------------------------------------- every name is a label

  /** Starts as "svc-" and a letter or digit, so that no truncation to five or more leaves nothing. */
  predicate IsBase(s: string) {
    && IsLabel(s) && |s| >= 5 && s[..4] == "svc-" && IsAlphanumeric(s[4])
  }

  lemma CleanName(id: string)
    ensures var t := TrimDashesRight(TrimDashesLeft(Sanitize(id)));
            && (forall i | 0 <= i < |t| :: IsLabelChar(t[i]))
            && (t != "" ==> t[0] != '-')
  {
    hide TrimDashesLeft, TrimDashesRight, Sanitize, IsLabelChar;
    var s := Sanitize(id);
    var l := TrimDashesLeft(s);
    EndIsClean(s, |s| - |l|);
    StartIsClean(l, |TrimDashesRight(l)|);
  }

  lemma EndIsClean(s: string, k: nat)
    requires k <= |s| && forall i | 0 <= i < |s| :: IsLabelChar(s[i])
    ensures forall i | 0 <= i < |s[k..]| :: IsLabelChar(s[k..][i])
  {
    hide IsLabelChar;
    forall i | 0 <= i < |s[k..]| ensures IsLabelChar(s[k..][i]) { assert s[k..][i] == s[k + i]; }
  }

  lemma StartIsClean(s: string, k: nat)
    requires k <= |s| && forall i | 0 <= i < |s| :: IsLabelChar(s[i])
    ensures forall i | 0 <= i < |s[..k]| :: IsLabelChar(s[..k][i])
  {
    hide IsLabelChar;
  }

  lemma CutIsBase(name: string)
    requires name != "" && name[0] != '-' && forall i | 0 <= i < |name| :: IsLabelChar(name[i])
    ensures IsBase(TrimContainerName("svc-" + name, 0))
  {
    hide TrimDashesRight;
    var full := "svc-" + name;
    var cut := if |full| > MAX_CONTAINER_NAME then full[..MAX_CONTAINER_NAME] else full;
    var t := TrimDashesRight(cut);
    assert cut[4] == full[4] == name[0];
    assert |t| >= 5;
    PrefixIsBase(name, full, t);
  }

  lemma PrefixIsBase(name: string, full: string, t: string)
    requires name != "" && name[0] != '-' && forall i | 0 <= i < |name| :: IsLabelChar(name[i])
    requires full == "svc-" + name && t <= full && 5 <= |t| <= MAX_CONTAINER_NAME && t[|t| - 1] != '-'
    ensures IsBase(t)
  {
    assert full[0] == 's' && full[1] == 'v' && full[2] == 'c' && full[3] == '-' && full[4] == name[0];
    assert t[..4] == "svc-";
    forall i | 0 <= i < |t| ensures IsLabelChar(t[i]) {
      if i >= 4 { assert full[i] == name[i - 4]; }
    }
  }

  lemma BaseIsLabel(id: string)
    ensures IsBase(ServiceContainerName(id))
  {
    hide Sanitize, TrimDashesLeft, TrimDashesRight, TrimContainerName, IsBase, IsLabelChar;
    var t := TrimDashesRight(TrimDashesLeft(Sanitize(id)));
    CleanName(id);
    DefaultIsClean();
    CutIsBase(if t == "" then "service" else t);
  }

  lemma DefaultIsClean()
    ensures "service"[0] != '-' && forall i | 0 <= i < |"service"| :: IsLabelChar("service"[i])
  {
  }

  /** How one character of an id is spelled: what may stand in a label as it is, a capital letter as the
      small one, and, but for two letters that are small ASCII ones to Unicode, anything else as a dash. */
  predicate SpelledAs(c: char, d: char) {
    if IsLabelChar(c) then d == c
    else if 'A' <= c <= 'Z' then d == c - 'A' + 'a'
    else c in "\U{0130}\U{212A}" || d == '-'
  }

  lemma SanitizedSpells(id: string, i: nat)
    requires i < |id|
    ensures SpelledAs(id[i], Sanitize(id)[i])
    ensures IsAlphanumeric(Lower(id[i])) ==> Sanitize(id)[i] == Lower(id[i])
  {
  }

  lemma NothingTrimmed(t: string)
    requires t != "" && t[0] != '-' && t[|t| - 1] != '-'
    ensures TrimDashesLeft(t) == t == TrimDashesRight(t)
  {
  }

  /** An id that begins and ends in a letter or digit and is short enough is spelled character by
      character. */
  lemma ShortNameIsSpelled(id: string) returns (t: string)
    requires 1 <= |id| <= 59
    requires IsAlphanumeric(Lower(id[0])) && IsAlphanumeric(Lower(id[|id| - 1]))
    ensures ServiceContainerName(id) == "svc-" + t && |t| == |id|
    ensures forall i | 0 <= i < |id| :: SpelledAs(id[i], t[i])
  {
    hide Sanitize, SpelledAs, TrimDashesLeft, TrimDashesRight, Lower;
    t := Sanitize(id);
    forall i | 0 <= i < |id| ensures SpelledAs(id[i], t[i]) { SanitizedSpells(id, i); }
    SanitizedSpells(id, 0);
    SanitizedSpells(id, |id| - 1);
    hide IsLabelChar;
    KeptWhole(id, t);
  }

  lemma KeptWhole(id: string, t: string)
    requires t == Sanitize(id) && 1 <= |t| <= 59 && t[0] != '-' && t[|t| - 1] != '-'
    ensures ServiceContainerName(id) == "svc-" + t
  {
    hide *;
    NothingTrimmed(t);
    NameFrom(id, t);
    Prefixed(t);
    NothingTrimmed("svc-" + t);
  }

  lemma NameFrom(id: string, t: string)
    requires t != "" && t == TrimDashesRight(TrimDashesLeft(Sanitize(id))) && |t| <= 59
    ensures ServiceContainerName(id) == TrimDashesRight("svc-" + t)
  {
    hide Sanitize, TrimDashesLeft, TrimDashesRight;
  }

  lemma Prefixed(t: string)
    requires t != ""
    ensures var name := "svc-" + t; name != "" && name[0] == 's' && name[|name| - 1] == t[|t| - 1]
  {
  }

  lemma LabelEnds(id: string)
    requires IsLabel(id)
    ensures id != "" && IsAlphanumeric(Lower(id[0])) && IsAlphanumeric(Lower(id[|id| - 1]))
    ensures forall i | 0 <= i < |id| :: IsLabelChar(id[i])
  {
  }

  lemma LabelSpelled(id: string, t: string)
    requires |t| == |id| && forall i | 0 <= i < |id| :: IsLabelChar(id[i])
    requires forall i | 0 <= i < |id| :: SpelledAs(id[i], t[i])
    ensures t == id
  {
    hide IsLabelChar;
    forall i | 0 <= i < |id| ensures t[i] == id[i] {
      assert SpelledAs(id[i], t[i]);
    }
  }

  /** So an id that is itself fit for a label keeps its name. */
  lemma LabelIsKept(id: string)
    requires IsLabel(id) && |id| <= 59
    ensures ServiceContainerName(id) == "svc-" + id
  {
    hide *;
    LabelEnds(id);
    var t := ShortNameIsSpelled(id);
    LabelSpelled(id, t);
  }

  /** A base that leaves room for a number is kept in front of it. */
  lemma CandidateIsNumbered(base: string, n: nat)
    requires IsBase(base) && n <= MAX_LENGTH + 3 && |base| + 1 + |Decimal(n)| <= 63
    ensures Candidate(base, n) == base + "-" + Decimal(n)
  {
    hide *;
    BaseEnds(base);
    NothingTrimmed(base);
    DecimalShort(n);
    CandidateIs(base, n);
    ConcatAssociative(base, "-", Decimal(n));
  }

  lemma BaseEnds(base: string)
    requires IsBase(base)
    ensures base != "" && base[0] != '-' && base[|base| - 1] != '-'
  {
  }

  lemma CandidateIs(base: string, n: nat)
    requires n <= MAX_LENGTH + 3 && |base| + 1 + |Decimal(n)| <= 63
    ensures Candidate(base, n) == TrimDashesRight(base) + ("-" + Decimal(n))
  {
    hide TrimDashesRight, Decimal;
  }

  /** An id with nothing to keep is named after what it is. */
  lemma NothingKept(id: string)
    requires forall i | 0 <= i < |id| :: !IsAlphanumeric(Lower(id[i]))
    ensures ServiceContainerName(id) == "svc-service"
  {
    var s := Sanitize(id);
    AllDashes(s);
    assert "svc-service"[10] == 'e' && |"svc-service"| == 11;
    assert "svc-" + "service" == "svc-service";
  }

  lemma {:induction false} AllDashes(s: string)
    requires forall i | 0 <= i < |s| :: s[i] == '-'
    ensures TrimDashesLeft(s) == ""
  {
    if s != "" { AllDashes(s[1..]); }
  }

  lemma CandidateIsLabel(base: string, n: nat)
    requires IsBase(base) && n <= MAX_LENGTH + 3
    ensures IsLabel(Candidate(base, n)) && |Candidate(base, n)| > 3 && Candidate(base, n)[..3] == "svc"
  {
    DecimalShort(n);
    var suffix := "-" + Decimal(n);
    var limit := MAX_CONTAINER_NAME - |suffix|;
    var cut := if |base| > limit then base[..limit] else base;
    var t := TrimDashesRight(cut);
    assert |t| >= 5 && t[4] == base[4];
    assert forall i | 0 <= i < |t| :: t[i] == base[i];
    assert base[..4][..3] == base[..3] == t[..3];
    NumberedIsLabel(t, Decimal(n));
  }

  lemma NumberedIsLabel(t: string, digits: string)
    requires |t| >= 5 && |t| + 1 + |digits| <= MAX_CONTAINER_NAME && digits != "" && t[..3] == "svc"
    requires (forall i | 0 <= i < |t| :: IsLabelChar(t[i])) && forall i | 0 <= i < |digits| :: '0' <= digits[i] <= '9'
    ensures var s := t + ("-" + digits);
            IsLabel(s) && |s| > 3 && s[..3] == "svc"
  {
    var s := t + ("-" + digits);
    assert s[..3] == t[..3] && s[0] == t[..3][0];
    assert forall i | 0 <= i < |t| :: s[i] == t[i];
    assert forall i | |t| < i < |s| :: s[i] == digits[i - |t| - 1];
  }

  // ---------------------------------------------------------------- candidates are distinct

  /** What follows the last dash of a name is determined by the name. */
  lemma SuffixUnique(a: string, d: string, b: string, e: string)
    requires a + "-" + d == b + "-" + e
    requires '-' !in d && '-' !in e
    ensures d == e
  {
    var s := a + "-" + d;
    assert s[|a|] == '-' && s[|b|] == '-';
    if |a| == |b| {
      assert s[|a| + 1..] == d && s[|b| + 1..] == e;
    }
  }

  /** Distinct numbers give distinct candidates, even after truncation. */
  lemma CandidatesDiffer(base: string, m: nat, n: nat)
    requires m <= MAX_LENGTH + 3 && n <= MAX_LENGTH + 3
    requires Candidate(base, m) == Candidate(base, n)
    ensures m == n
  {
    DecimalShort(m);
    DecimalShort(n);
    var dm, dn := Decimal(m), Decimal(n);
    var tm, tn := TrimContainerName(base, |"-" + dm|), TrimContainerName(base, |"-" + dn|);
    hide TrimContainerName, Decimal;
    ConcatAssociative(tm, "-", dm);
    ConcatAssociative(tn, "-", dn);
    SuffixUnique(tm, dm, tn, dn);
    DecimalInjective(m, n);
  }

  /** The candidates numbered from 2 up to n, exclusive. */
  function Candidates(base: string, n: nat): set<string>
    requires 2 <= n <= MAX_LENGTH + 4
  {
    if n == 2 then {} else Candidates(base, n - 1) + {Candidate(base, n - 1)}
  }

  lemma {:induction false} CandidatesMembers(base: string, n: nat, x: string)
    requires 2 <= n <= MAX_LENGTH + 4
    ensures x in Candidates(base, n) <==> exists m | 2 <= m < n :: x == Candidate(base, m)
  {
    hide Candidate;
    if n > 2 {
      CandidatesMembers(base, n - 1, x);
    }
  }

  lemma {:induction false} CandidatesCount(base: string, n: nat)
    requires 2 <= n <= MAX_LENGTH + 4
    ensures |Candidates(base, n)| == n - 2
  {
    hide Candidate;
    if n > 2 {
      CandidatesCount(base, n - 1);
      CandidatesMembers(base, n - 1, Candidate(base, n - 1));
      if m :| 2 <= m < n - 1 && Candidate(base, n - 1) == Candidate(base, m) {
        CandidatesDiffer(base, n - 1, m);
      }
    }
  }

  lemma SubsetSize<T>(a: set<T>, b: set<T>)
    requires a <= b
    ensures |a| <= |b|
  {
    if a != {} {
      var x :| x in a;
      SubsetSize(a - {x}, b - {x});
    }
  }

  // ---------------------------------------------------------------- the assignment

  datatype ServiceInput = ServiceInput(name: string, containerName: string)

  /** name is the base if that is free, and else the first free candidate. */
  ghost predicate IsFirstFree(used: set<string>, base: string, name: string) {
    && name !in used
    && (name == base || (base in used && exists n | 2 <= n <= MAX_LENGTH + 3 ::
                           name == Candidate(base, n) && forall m | 2 <= m < n :: Candidate(base, m) in used))
  }

  /** The names in use before the i-th service is named. */
  ghost function UsedBefore(services: seq<ServiceInput>, i: nat): set<string>
    requires i <= |services|
  {
    if i == 0 then {JOB_CONTAINER_NAME} else UsedBefore(services, i - 1) + {services[i - 1].containerName}
  }

  lemma {:induction false} UsedBeforeFrame(services: seq<ServiceInput>, services': seq<ServiceInput>, i: nat)
    requires i <= |services| && i <= |services'| && services[..i] == services'[..i]
    ensures UsedBefore(services, i) == UsedBefore(services', i)
  {
    if i > 0 {
      assert services[..i][i - 1] == services'[..i][i - 1];
      assert services[..i - 1] == services[..i][..i - 1] == services'[..i][..i - 1] == services'[..i - 1];
      UsedBeforeFrame(services, services', i - 1);
    }
  }

  lemma {:induction false} UsedMembers(services: seq<ServiceInput>, i: nat, j: nat)
    requires j <= |services|
    ensures JOB_CONTAINER_NAME in UsedBefore(services, j)
    ensures i < j ==> services[i].containerName in UsedBefore(services, j)
  {
    if j > 0 {
      UsedMembers(services, i, j - 1);
    }
  }

  /** No more candidates can be taken than names are. */
  lemma TakenBound(used: set<string>, base: string, n: nat)
    requires 2 <= n <= MAX_LENGTH + 4 && Candidates(base, n) <= used
    ensures n - 2 <= |used|
  {
    CandidatesCount(base, n);
    SubsetSize(Candidates(base, n), used);
  }

  method FirstFree(used: set<string>, base: string) returns (name: string)
    requires |used| <= MAX_LENGTH + 1 && IsBase(base)
    ensures IsFirstFree(used, base, name) && IsLabel(name)
  {
    hide Candidate, IsLabel;
    name := base;
    var n := 2;
    BasesAreLabels(base);
    while name in used
      invariant 2 <= n <= |used| + 3 && IsLabel(name)
      invariant n == 2 ==> name == base
      invariant n > 2 ==> base in used && name == Candidate(base, n - 1) && Candidates(base, n - 1) <= used
      decreases |used| + 3 - n
    {
      assert Candidates(base, n) <= used;
      TakenBound(used, base, n);
      CandidateIsLabel(base, n);
      name := Candidate(base, n);
      n := n + 1;
    }
    if n > 2 {
      forall m | 2 <= m < n - 1 ensures Candidate(base, m) in used {
        CandidatesMembers(base, n - 1, Candidate(base, m));
      }
    }
  }

  lemma BasesAreLabels(base: string)
    requires IsBase(base)
    ensures IsLabel(base)
  {
  }

  /** The first i services are named as they should be. */
  ghost predicate Named(services: seq<ServiceInput>, i: nat)
    requires i <= |services|
  {
    forall k | 0 <= k < i ::
      && IsLabel(services[k].containerName)
      && IsFirstFree(UsedBefore(services, k), ServiceContainerName(services[k].name), services[k].containerName)
  }

  lemma NamedStep(services: seq<ServiceInput>, i: nat, name: string)
    requires i < |services| && Named(services, i) && IsLabel(name)
    requires IsFirstFree(UsedBefore(services, i), ServiceContainerName(services[i].name), name)
    ensures var services' := services[i := services[i].(containerName := name)];
            && Named(services', i + 1)
            && UsedBefore(services', i + 1) == UsedBefore(services, i) + {name}
  {
    hide IsLabel, IsFirstFree, ServiceContainerName;
    var services' := services[i := services[i].(containerName := name)];
    forall k | 0 <= k <= i ensures UsedBefore(services', k) == UsedBefore(services, k) {
      assert services'[..k] == services[..k];
      UsedBeforeFrame(services', services, k);
    }
    hide UsedBefore;
  }

  lemma NamedApart(services: seq<ServiceInput>, i: nat, j: nat)
    requires i < j <= |services| && Named(services, |services|)
    ensures j < |services| ==> services[i].containerName != services[j].containerName
    ensures services[i].containerName != JOB_CONTAINER_NAME
  {
    UsedMembers(services, i, j);
    UsedMembers(services, 0, i);
  }

  /** Names every service in place: labels all, pairwise distinct, none the job container's, and each
      the first that was free when its turn came. */
  method AssignServiceContainerNames(services: array<ServiceInput>)
    requires services.Length <= MAX_LENGTH
    modifies services
    ensures forall i | 0 <= i < services.Length :: services[i].name == old(services[i].name)
    ensures forall i | 0 <= i < services.Length :: IsLabel(services[i].containerName)
    ensures forall i | 0 <= i < services.Length :: services[i].containerName != "job"
    ensures forall i, j | 0 <= i < j < services.Length :: services[i].containerName != services[j].containerName
    ensures Named(services[..], services.Length)
  {
    hide IsLabel, IsFirstFree, ServiceContainerName;
    var used := {JOB_CONTAINER_NAME};
    for i := 0 to services.Length
      invariant forall k | 0 <= k < services.Length :: services[k].name == old(services[k].name)
      invariant used == UsedBefore(services[..], i) && |used| <= i + 1
      invariant Named(services[..], i)
    {
      BaseIsLabel(services[i].name);
      var name := FirstFree(used, ServiceContainerName(services[i].name));
      NamedStep(services[..], i, name);
      ghost var next := services[..][i := services[i].(containerName := name)];
      services[i] := services[i].(containerName := name);
      assert services[..] == next;
      used := used + {name};
    }
    forall i, j | 0 <= i < j <= services.Length
      ensures j < services.Length ==> services[i].containerName != services[j].containerName
      ensures services[i].containerName != JOB_CONTAINER_NAME
    {
      NamedApart(services[..], i, j);
    }
    forall i | 0 <= i < services.Length ensures services[i].containerName != JOB_CONTAINER_NAME {
      NamedApart(services[..], i, services.Length);
    }
  }
}
