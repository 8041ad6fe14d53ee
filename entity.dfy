/**
 * The rate-limit policy records and the validation of the configured policy set:
 * `ServiceConfig`, `Config` and `Config.Validate`.
 */
module Entity {
  import opened Wrappers

  /** One configured policy. `kind` is the record's `Type` field and `waitTime` its
      `WaitTimeIfLimitExceeded` field. */
  datatype ServiceConfig = ServiceConfig(
    name: string,
    kind: string,
    address: string,
    key: string,
    valid: bool,
    allowedRps: int,
    waitTime: string)

  /** The name of the mandatory fallback policy, which is also the key it is stored under. */
  const DefaultName: string := "default"

  datatype ValidationError =
    | ServicesEmpty
    | DefaultMissing
    | EmptyName
    | InvalidType(service: string)
    | NegativeRate(service: string)
    | MissingKey(service: string)
    | MissingAddress(service: string)

  /** The text each error carries. */
  function Message(e: ValidationError): string
  {
    match e
    case ServicesEmpty => "services cannot be empty"
    case DefaultMissing => "default service is missing"
    case EmptyName => "service name cannot be empty"
    case InvalidType(n) => "invalid type for service '" + n + "': must be 'ip' or 'token'"
    case NegativeRate(n) => "allowed_rps must be >= 0 for service '" + n + "'"
    case MissingKey(n) => "key cannot be empty for service '" + n + "' of type 'token'"
    case MissingAddress(n) => "address cannot be empty for service '" + n + "' of type 'ip'"
  }

  /** The shape of a policy that passes every per-entry check. */
  predicate WellFormed(s: ServiceConfig)
  {
    && s.name != ""
    && (s.kind == "ip" || s.kind == "token")
    && s.allowedRps >= 0
    && (s.kind == "token" ==> s.key != "")
    && (s.kind == "ip" ==> s.address != "")
  }

  /** The per-entry checks of the filtering loop, in source order, leaving out the
      duplicate-name check: the first one that fails gives the error. */
  function Check(s: ServiceConfig): (r: Option<ValidationError>)
    ensures r.None? <==> WellFormed(s)
    ensures r == Some(EmptyName) <==> s.name == ""
  {
    if s.name == "" then Some(EmptyName)
    else if s.kind != "ip" && s.kind != "token" then Some(InvalidType(s.name))
    else if s.allowedRps < 0 then Some(NegativeRate(s.name))
    else if s.kind == "token" && s.key == "" then Some(MissingKey(s.name))
    else if s.kind == "ip" && s.address == "" then Some(MissingAddress(s.name))
    else None
  }

  /** What the filtering loop does with one entry. */
  datatype Step = Keep | Skip | Reject(error: ValidationError)

  /** The filtering loop's decision for entry `s` when `seen` holds the names retained so far:
      an empty name is an error, a retained name is skipped silently, and otherwise the
      remaining checks decide. */
  function Classify(s: ServiceConfig, seen: set<string>): Step
  {
    if s.name == "" then Reject(EmptyName)
    else if s.name in seen then Skip
    else match Check(s)
      case Some(e) => Reject(e)
      case None => Keep
  }

  /** The state of the filtering loop: the retained entries, the errors and the retained names. */
  datatype Screening = Screening(kept: seq<ServiceConfig>, errors: seq<ValidationError>, seen: set<string>)

  /** The filtering loop run over `s`, defined on prefixes so that it follows the loop step by step. */
  function Screen(s: seq<ServiceConfig>): Screening
    decreases |s|
  {
    if s == [] then Screening([], [], {})
    else
      var prev := Screen(s[..|s| - 1]);
      var last := s[|s| - 1];
      match Classify(last, prev.seen)
      case Keep => Screening(prev.kept + [last], prev.errors, prev.seen + {last.name})
      case Skip => prev
      case Reject(e) => Screening(prev.kept, prev.errors + [e], prev.seen)
  }

  /** An entry named `default` has its key forced to `default`. */
  function ForceKey(s: ServiceConfig): ServiceConfig
  {
    if s.name == DefaultName then s.(key := DefaultName) else s
  }

  function ForceDefaultKeys(s: seq<ServiceConfig>): (r: seq<ServiceConfig>)
    ensures |r| == |s|
    ensures forall i :: 0 <= i < |s| ==> r[i] == ForceKey(s[i])
  {
    seq(|s|, i requires 0 <= i < |s| => ForceKey(s[i]))
  }

  /** The last entry named `default`, whose wait time and rate the first loop keeps. */
  function LastDefault(s: seq<ServiceConfig>): Option<ServiceConfig>
    decreases |s|
  {
    if s == [] then None
    else if s[|s| - 1].name == DefaultName then Some(s[|s| - 1])
    else LastDefault(s[..|s| - 1])
  }

  /** A retained entry that is `valid` takes the default's wait time when its own is empty
      and the default's rate when its own is zero. */
  function Inherit(vs: ServiceConfig, defaultWait: string, defaultRps: int): ServiceConfig
  {
    vs.(waitTime := if vs.waitTime == "" && vs.valid then defaultWait else vs.waitTime,
        allowedRps := if vs.allowedRps == 0 && vs.valid then defaultRps else vs.allowedRps)
  }

  function InheritAll(kept: seq<ServiceConfig>, defaultWait: string, defaultRps: int): (r: seq<ServiceConfig>)
    ensures |r| == |kept|
    ensures forall j :: 0 <= j < |kept| ==> r[j] == Inherit(kept[j], defaultWait, defaultRps)
  {
    seq(|kept|, j requires 0 <= j < |kept| => Inherit(kept[j], defaultWait, defaultRps))
  }

  /** The new policy list and the errors of one validation. */
  datatype Validation = Validation(services: seq<ServiceConfig>, errors: seq<ValidationError>)

  /** What `Config.Validate` makes of the list `s`. */
  function Validated(s: seq<ServiceConfig>): Validation
  {
    if |s| == 0 then Validation([], [ServicesEmpty])
    else match LastDefault(s)
      case None => Validation([], [DefaultMissing])
      case Some(d) =>
        var sc := Screen(ForceDefaultKeys(s));
        Validation(InheritAll(sc.kept, d.waitTime, d.allowedRps), sc.errors)
  }

  /** The policy set as the configuration loader sees it: validated in place. */
  class Config {
    var services: seq<ServiceConfig>

    constructor (services: seq<ServiceConfig>)
      ensures this.services == services
    {
      this.services := services;
    }

    /** Filters the list in place and returns one error per dropped invalid entry. */
    method Validate() returns (errors: seq<ValidationError>)
      modifies this
      ensures services == Validated(old(services)).services
      ensures errors == Validated(old(services)).errors
    {
      if |services| == 0 {
        errors := [ServicesEmpty];
        return;
      }

      var forced, hasDefault, defaultWait, defaultRps := ScanDefaults(services);
      services := forced;
      if !hasDefault {
        services := [];
        errors := [DefaultMissing];
        return;
      }

      var validServices;
      validServices, errors := FilterServices(services);
      validServices := FillDefaults(validServices, defaultWait, defaultRps);
      services := validServices;
    }
  }

  /** The first loop of Validate: forces the key of every entry named `default` and keeps the
      wait time and rate of the last one. */
  method ScanDefaults(services: seq<ServiceConfig>)
    returns (forced: seq<ServiceConfig>, hasDefault: bool, defaultWait: string, defaultRps: int)
    ensures forced == ForceDefaultKeys(services)
    ensures hasDefault <==> LastDefault(services).Some?
    ensures hasDefault ==> defaultWait == LastDefault(services).value.waitTime
    ensures hasDefault ==> defaultRps == LastDefault(services).value.allowedRps
  {
    forced := services;
    defaultWait, defaultRps, hasDefault := "", 0, false;
    for i := 0 to |services|
      invariant |forced| == |services|
      invariant forall j :: 0 <= j < i ==> forced[j] == ForceKey(services[j])
      invariant forall j :: i <= j < |forced| ==> forced[j] == services[j]
      invariant hasDefault <==> LastDefault(services[..i]).Some?
      invariant hasDefault ==> defaultWait == LastDefault(services[..i]).value.waitTime
      invariant hasDefault ==> defaultRps == LastDefault(services[..i]).value.allowedRps
    {
      assert services[..i + 1][..i] == services[..i];
      var s := forced[i];
      if s.name == DefaultName {
        defaultWait := s.waitTime;
        defaultRps := s.allowedRps;
        hasDefault := true;
        forced := forced[i := s.(key := DefaultName)];
      }
    }
    assert services[..|services|] == services;
  }

  /** The filtering loop of Validate: keeps the first entry of each name that passes every
      check, skips later entries of a kept name, and reports every other entry. */
  method FilterServices(services: seq<ServiceConfig>)
    returns (validServices: seq<ServiceConfig>, errors: seq<ValidationError>)
    ensures validServices == Screen(services).kept
    ensures errors == Screen(services).errors
  {
    validServices, errors := [], [];
    var seenNames: set<string> := {};
    for i := 0 to |services|
      invariant Screen(services[..i]) == Screening(validServices, errors, seenNames)
    {
      assert services[..i + 1][..i] == services[..i];
      var s := services[i];
      if s.name == "" {
        errors := errors + [EmptyName];
        continue;
      }
      if s.name in seenNames {
        continue;
      }
      if s.kind != "ip" && s.kind != "token" {
        errors := errors + [InvalidType(s.name)];
        continue;
      }
      if s.allowedRps < 0 {
        errors := errors + [NegativeRate(s.name)];
        continue;
      }
      if s.kind == "token" && s.key == "" {
        errors := errors + [MissingKey(s.name)];
        continue;
      }
      if s.kind == "ip" && s.address == "" {
        errors := errors + [MissingAddress(s.name)];
        continue;
      }
      seenNames := seenNames + {s.name};
      validServices := validServices + [s];
    }
    assert services[..|services|] == services;
  }

  /** The last loop of Validate: fills the empty wait time and the zero rate of every valid
      retained entry from the default. */
  method FillDefaults(kept: seq<ServiceConfig>, defaultWait: string, defaultRps: int)
    returns (validServices: seq<ServiceConfig>)
    ensures validServices == InheritAll(kept, defaultWait, defaultRps)
  {
    validServices := kept;
    for j := 0 to |validServices|
      invariant |validServices| == |kept|
      invariant forall k :: 0 <= k < j ==> validServices[k] == Inherit(kept[k], defaultWait, defaultRps)
      invariant forall k :: j <= k < |validServices| ==> validServices[k] == kept[k]
    {
      var vs := validServices[j];
      if vs.waitTime == "" && vs.valid {
        vs := vs.(waitTime := defaultWait);
      }
      if vs.allowedRps == 0 && vs.valid {
        vs := vs.(allowedRps := defaultRps);
      }
      validServices := validServices[j := vs];
    }
  }

  /** What the loader does with the result: an empty policy list fails with the first error. */
  function LoadValidated(s: seq<ServiceConfig>): (r: Result<seq<ServiceConfig>, ValidationError>)
    ensures r.Failure? <==> Validated(s).services == []
    ensures r.Success? ==> r.value == Validated(s).services
    ensures s == [] ==> r == Failure(ServicesEmpty)
    ensures (forall i :: 0 <= i < |s| ==> s[i].name != DefaultName) && s != [] ==> r == Failure(DefaultMissing)
    ensures r.Failure? ==> Validated(s).errors != [] && r.error == Validated(s).errors[0]
  {
    var v := Validated(s);
    LastDefaultIsLast(s);
    if |v.services| == 0 then
      ValidatedEmptyHasErrors(s);
      Failure(v.errors[0])
    else
      Success(v.services)
  }

  // ---------------------------------------------------------------------------
  // Reference definitions, stated over the input without the loop's state.

  /** The names of the entries of `s` that pass every per-entry check. */
  function AcceptedNames(s: seq<ServiceConfig>): set<string>
  {
    set i | 0 <= i < |s| && WellFormed(s[i]) :: s[i].name
  }

  function NamesOf(s: seq<ServiceConfig>): set<string>
  {
    set i | 0 <= i < |s| :: s[i].name
  }

  /** Entry `i` passes every check and no earlier entry with its name does. */
  predicate FirstAccepted(s: seq<ServiceConfig>, i: int)
    requires 0 <= i < |s|
  {
    WellFormed(s[i]) && s[i].name !in AcceptedNames(s[..i])
  }

  /** Entry `i` repeats the name of an earlier entry that passes every check. */
  predicate DuplicateAt(s: seq<ServiceConfig>, i: int)
    requires 0 <= i < |s|
  {
    s[i].name != "" && s[i].name in AcceptedNames(s[..i])
  }

  /** The entries of `s` that are the first accepted entry of their name, in input order. */
  function Firsts(s: seq<ServiceConfig>): seq<ServiceConfig>
    decreases |s|
  {
    if s == [] then []
    else Firsts(s[..|s| - 1]) + (if FirstAccepted(s, |s| - 1) then [s[|s| - 1]] else [])
  }

  /** The failed check of every entry that is neither a first accepted entry nor a duplicate. */
  function Rejections(s: seq<ServiceConfig>): seq<ValidationError>
    decreases |s|
  {
    if s == [] then []
    else
      var last := s[|s| - 1];
      Rejections(s[..|s| - 1]) +
        (if FirstAccepted(s, |s| - 1) || DuplicateAt(s, |s| - 1) then []
         else match Check(last) case Some(e) => [e] case None => [])
  }

  function DuplicateCount(s: seq<ServiceConfig>): nat
    decreases |s|
  {
    if s == [] then 0
    else DuplicateCount(s[..|s| - 1]) + (if DuplicateAt(s, |s| - 1) then 1 else 0)
  }

  /** `a` is `b` with some entries left out, order kept. */
  predicate IsSubsequence<T(==)>(a: seq<T>, b: seq<T>)
    decreases |b|
  {
    if a == [] then true
    else if b == [] then false
    else (a[|a| - 1] == b[|b| - 1] && IsSubsequence(a[..|a| - 1], b[..|b| - 1]))
         || IsSubsequence(a, b[..|b| - 1])
  }

  // ---------------------------------------------------------------------------
  // Lemmas about the filtering loop.

  lemma AcceptedNamesSnoc(s: seq<ServiceConfig>)
    requires s != []
    ensures AcceptedNames(s) ==
      AcceptedNames(s[..|s| - 1]) + (if WellFormed(s[|s| - 1]) then {s[|s| - 1].name} else {})
  {
    var p := s[..|s| - 1];
    forall n | n in AcceptedNames(s)
      ensures n in AcceptedNames(p) + (if WellFormed(s[|s| - 1]) then {s[|s| - 1].name} else {})
    {
      var i :| 0 <= i < |s| && WellFormed(s[i]) && s[i].name == n;
      if i < |s| - 1 {
        assert p[i] == s[i];
      }
    }
    forall n | n in AcceptedNames(p) ensures n in AcceptedNames(s) {
      var i :| 0 <= i < |p| && WellFormed(p[i]) && p[i].name == n;
      assert s[i] == p[i];
    }
  }

  lemma NamesOfSnoc(k: seq<ServiceConfig>, e: ServiceConfig)
    ensures NamesOf(k + [e]) == NamesOf(k) + {e.name}
  {
    var k' := k + [e];
    forall n | n in NamesOf(k') ensures n in NamesOf(k) + {e.name} {
      var i :| 0 <= i < |k'| && k'[i].name == n;
      if i < |k| {
        assert k'[i] == k[i];
      }
    }
    forall n | n in NamesOf(k) ensures n in NamesOf(k') {
      var i :| 0 <= i < |k| && k[i].name == n;
      assert k'[i] == k[i];
    }
    assert k'[|k|] == e;
  }

  /** The loop's set of seen names is exactly the set of names of the entries that pass
      every check; the retained list is exactly the first accepted entry of each name, in
      input order; and the errors are exactly the failed checks of the remaining entries
      that are not duplicates. */
  lemma {:induction false} ScreenMatchesReference(s: seq<ServiceConfig>)
    ensures Screen(s).seen == AcceptedNames(s)
    ensures Screen(s).kept == Firsts(s)
    ensures Screen(s).errors == Rejections(s)
    decreases |s|
  {
    if s != [] {
      var p := s[..|s| - 1];
      ScreenMatchesReference(p);
      AcceptedNamesSnoc(s);
      assert s[..|s| - 1] == p;
    }
  }

  /** Every retained entry passes every check, the retained names are pairwise distinct,
      and the seen set holds exactly the retained names. */
  lemma {:induction false} ScreenRetainedUniqueWellFormed(s: seq<ServiceConfig>)
    ensures Screen(s).seen == NamesOf(Screen(s).kept)
    ensures forall j :: 0 <= j < |Screen(s).kept| ==> WellFormed(Screen(s).kept[j])
    ensures forall i, j :: 0 <= i < j < |Screen(s).kept| ==> Screen(s).kept[i].name != Screen(s).kept[j].name
    decreases |s|
  {
    if s != [] {
      var p := s[..|s| - 1];
      ScreenRetainedUniqueWellFormed(p);
      var last := s[|s| - 1];
      var prev := Screen(p);
      if Classify(last, prev.seen) == Keep {
        NamesOfSnoc(prev.kept, last);
        var k := prev.kept + [last];
        forall i, j | 0 <= i < j < |k| ensures k[i].name != k[j].name {
          if j == |k| - 1 {
            assert k[i].name in NamesOf(prev.kept) by { assert prev.kept[i] == k[i]; }
          } else {
            assert k[i] == prev.kept[i] && k[j] == prev.kept[j];
          }
        }
      }
    }
  }

  lemma {:induction false} SubsequenceExtend<T>(a: seq<T>, b: seq<T>, x: T)
    requires IsSubsequence(a, b)
    ensures IsSubsequence(a, b + [x])
  {
    assert (b + [x])[..|b|] == b;
  }

  /** The retained entries are the input with entries left out, in input order. */
  lemma {:induction false} ScreenIsSubsequence(s: seq<ServiceConfig>)
    ensures IsSubsequence(Screen(s).kept, s)
    decreases |s|
  {
    if s != [] {
      var p := s[..|s| - 1];
      var last := s[|s| - 1];
      ScreenIsSubsequence(p);
      assert s == p + [last];
      var prev := Screen(p);
      if Classify(last, prev.seen) == Keep {
        var k := prev.kept + [last];
        assert k[..|k| - 1] == prev.kept;
      } else {
        SubsequenceExtend(prev.kept, p, last);
      }
    }
  }

  /** Every input entry is retained, dropped as a duplicate, or reported by exactly one error. */
  lemma {:induction false} ScreenAccounting(s: seq<ServiceConfig>)
    ensures |Screen(s).kept| + |Screen(s).errors| + DuplicateCount(s) == |s|
    decreases |s|
  {
    if s != [] {
      var p := s[..|s| - 1];
      ScreenAccounting(p);
      ScreenMatchesReference(p);
    }
  }

  /** A non-empty input that retains nothing reports at least one error: nothing can be a
      duplicate when no name has been retained. */
  lemma {:induction false} ScreenEmptyHasErrors(s: seq<ServiceConfig>)
    requires s != [] && Screen(s).kept == []
    ensures Screen(s).errors != []
  {
    var p := s[..|s| - 1];
    ScreenRetainedUniqueWellFormed(p);
    assert Screen(p).kept == [];
    assert Screen(p).seen == {};
  }

  // ---------------------------------------------------------------------------
  // Lemmas about the whole validation.

  /** The defaults the first loop keeps come from the last entry named `default`, and there
      is one exactly when some entry is named `default`. */
  lemma {:induction false} LastDefaultIsLast(s: seq<ServiceConfig>)
    ensures LastDefault(s).None? <==> forall i :: 0 <= i < |s| ==> s[i].name != DefaultName
    ensures LastDefault(s).Some? ==>
      exists i :: 0 <= i < |s| && s[i] == LastDefault(s).value && s[i].name == DefaultName
        && forall j :: i < j < |s| ==> s[j].name != DefaultName
    decreases |s|
  {
    if s == [] {
    } else if s[|s| - 1].name == DefaultName {
      var i := |s| - 1;
      assert s[i] == LastDefault(s).value;
    } else {
      var p := s[..|s| - 1];
      assert LastDefault(s) == LastDefault(p);
      LastDefaultIsLast(p);
      if LastDefault(p).Some? {
        var i :| 0 <= i < |p| && p[i] == LastDefault(p).value && p[i].name == DefaultName
          && forall j :: i < j < |p| ==> p[j].name != DefaultName;
        assert s[i] == p[i];
        forall j | i < j < |s| ensures s[j].name != DefaultName {
          if j < |p| { assert s[j] == p[j]; }
        }
      } else {
        forall j | 0 <= j < |s| ensures s[j].name != DefaultName {
          if j < |p| { assert s[j] == p[j]; }
        }
      }
    }
  }

  /** An empty list is refused with the single error "services cannot be empty". */
  lemma EmptyListRejected()
    ensures Validated([]) == Validation([], [ServicesEmpty])
    ensures Message(ServicesEmpty) == "services cannot be empty"
  {
  }

  /** A list without an entry named `default` is emptied with the single error
      "default service is missing". */
  lemma NoDefaultRejected(s: seq<ServiceConfig>)
    requires s != []
    requires forall i :: 0 <= i < |s| ==> s[i].name != DefaultName
    ensures Validated(s) == Validation([], [DefaultMissing])
  {
    LastDefaultIsLast(s);
  }

  /** Every input entry named `default` has its key forced to `default` before filtering,
      and no other field of any entry changes. */
  lemma DefaultKeysForced(s: seq<ServiceConfig>, i: int)
    requires 0 <= i < |s|
    ensures ForceDefaultKeys(s)[i].name == DefaultName ==> ForceDefaultKeys(s)[i].key == DefaultName
    ensures ForceDefaultKeys(s)[i].(key := s[i].key) == s[i]
  {
  }

  /** Every retained policy has a name, a type `ip` or `token`, a key when it is a token
      policy and an address when it is an ip policy; a retained `default` has key
      `default`; the names are pairwise distinct; and the rate is non-negative unless it
      was inherited from a `default` whose own rate is negative. */
  lemma ValidatedRetained(s: seq<ServiceConfig>)
    ensures forall r :: r in Validated(s).services ==>
      && r.name != ""
      && (r.kind == "ip" || r.kind == "token")
      && (r.kind == "token" ==> r.key != "")
      && (r.kind == "ip" ==> r.address != "")
      && (r.name == DefaultName ==> r.key == DefaultName)
      && (r.allowedRps >= 0 || (LastDefault(s).Some? && r.allowedRps == LastDefault(s).value.allowedRps < 0))
    ensures forall i, j :: 0 <= i < j < |Validated(s).services| ==>
      Validated(s).services[i].name != Validated(s).services[j].name
  {
    if s != [] && LastDefault(s).Some? {
      var f := ForceDefaultKeys(s);
      ScreenRetainedUniqueWellFormed(f);
      var kept := Screen(f).kept;
      forall j | 0 <= j < |kept| ensures kept[j].name == DefaultName ==> kept[j].key == DefaultName {
        ScreenKeptFromInput(f, j);
      }
    }
  }

  /** Every retained entry is one of the input entries. */
  lemma {:induction false} ScreenKeptFromInput(s: seq<ServiceConfig>, j: int)
    requires 0 <= j < |Screen(s).kept|
    ensures Screen(s).kept[j] in s
    decreases |s|
  {
    var p := s[..|s| - 1];
    var prev := Screen(p);
    if j < |prev.kept| {
      ScreenKeptFromInput(p, j);
      assert prev.kept[j] == Screen(s).kept[j];
    }
  }

  /** The retained list is the filtered input (with keys of `default` entries forced), in
      input order, where only the wait time and the rate may differ from the input entry:
      a valid entry with an empty wait time or a zero rate takes the last `default`
      entry's value, and an invalid entry is kept as it is. */
  lemma ValidatedInheritance(s: seq<ServiceConfig>)
    requires LastDefault(s).Some?
    ensures var d := LastDefault(s).value;
      var kept := Screen(ForceDefaultKeys(s)).kept;
      var out := Validated(s).services;
      && IsSubsequence(kept, ForceDefaultKeys(s))
      && |out| == |kept|
      && (forall j :: 0 <= j < |kept| ==>
            out[j].(waitTime := kept[j].waitTime, allowedRps := kept[j].allowedRps) == kept[j])
      && (forall j :: 0 <= j < |kept| && !kept[j].valid ==> out[j] == kept[j])
      && (forall j :: 0 <= j < |kept| && kept[j].valid && kept[j].waitTime == "" ==> out[j].waitTime == d.waitTime)
      && (forall j :: 0 <= j < |kept| && kept[j].waitTime != "" ==> out[j].waitTime == kept[j].waitTime)
      && (forall j :: 0 <= j < |kept| && kept[j].valid && kept[j].allowedRps == 0 ==> out[j].allowedRps == d.allowedRps)
      && (forall j :: 0 <= j < |kept| && kept[j].allowedRps != 0 ==> out[j].allowedRps == kept[j].allowedRps)
  {
    ScreenIsSubsequence(ForceDefaultKeys(s));
  }

  /** With a `default` present, every input entry is retained, dropped silently as a later
      duplicate of a retained name, or reported by exactly one error. */
  lemma ValidatedAccounting(s: seq<ServiceConfig>)
    requires LastDefault(s).Some?
    ensures |Validated(s).services| + |Validated(s).errors| + DuplicateCount(ForceDefaultKeys(s)) == |s|
  {
    ScreenAccounting(ForceDefaultKeys(s));
  }

  /** Whenever the validated list is empty there is an error to report. */
  lemma ValidatedEmptyHasErrors(s: seq<ServiceConfig>)
    ensures Validated(s).services == [] ==> Validated(s).errors != []
  {
    if s != [] && LastDefault(s).Some? && Validated(s).services == [] {
      ScreenEmptyHasErrors(ForceDefaultKeys(s));
    }
  }

  /** A `default` entry that is dropped for a negative rate still hands that rate on: a
      valid entry with rate 0 is retained with rate -1. */
  lemma NegativeRateInherited()
    ensures var d := ServiceConfig("default", "ip", "any", "", true, -1, "5m");
      var a := ServiceConfig("a", "ip", "10.0.0.1", "", true, 0, "");
      Validated([d, a]) == Validation([a.(allowedRps := -1, waitTime := "5m")], [NegativeRate("default")])
  {
    var d := ServiceConfig("default", "ip", "any", "", true, -1, "5m");
    var a := ServiceConfig("a", "ip", "10.0.0.1", "", true, 0, "");
    var s := [d, a];
    assert s[..1] == [d];
    assert LastDefault(s) == Some(d);
    var f := ForceDefaultKeys(s);
    assert f == [d.(key := "default"), a];
    assert f[..1] == [d.(key := "default")];
    assert f[..1][..0] == [];
    assert Screen(f[..1]) == Screening([], [NegativeRate("default")], {});
  }
}
