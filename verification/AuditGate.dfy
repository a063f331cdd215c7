/** Which vulnerable packages the audit gate lets through: those whose every cause is accepted. */
module AuditGate {
  import opened Collections
  import opened Options

  /** A cause is a package name, an advisory with the identifiers found in it, or something else. */
  datatype Cause = Package(name: string) | Advisory(ids: seq<string>) | Other
  datatype Vulnerability = Vulnerability(via: Option<seq<Cause>>)
  type Report = map<string, Vulnerability>

  predicate AdvisoryAccepted(ids: seq<string>, accepted: set<string>) {
    ids != [] && forall id :: id in ids ==> id in accepted
  }

  /** The packages and advisories a record blames, when it blames any. */
  function Causes(report: Report, name: string): seq<Cause> {
    if name in report && report[name].via.Some? then report[name].via.value else []
  }

  /** The recursion of the gate, with the set of packages on the current path. */
  predicate ChainAccepted(report: Report, accepted: set<string>, name: string, visiting: set<string>)
    decreases report.Keys - visiting
  {
    && Causes(report, name) != []
    && name !in visiting
    && forall cause :: cause in Causes(report, name) ==>
         match cause
         case Package(p) => ChainAccepted(report, accepted, p, visiting + {name})
         case Advisory(ids) => AdvisoryAccepted(ids, accepted)
         case Other => false
  }

  // ---- The least fixed point ----------------------------------------------------------------------

  /** One application of the rule: every cause is an accepted advisory or already in `known`. */
  predicate Supported(report: Report, accepted: set<string>, name: string, known: set<string>) {
    && Causes(report, name) != []
    && forall cause :: cause in Causes(report, name) ==>
         match cause
         case Package(p) => p in known
         case Advisory(ids) => AdvisoryAccepted(ids, accepted)
         case Other => false
  }

  ghost predicate Closed(report: Report, accepted: set<string>, known: set<string>) {
    forall name :: Supported(report, accepted, name, known) ==> name in known
  }

  /** Membership in the least set closed under the rule. */
  ghost predicate InLeast(report: Report, accepted: set<string>, name: string) {
    forall known :: Closed(report, accepted, known) ==> name in known
  }

  /** The packages supported within k rounds. */
  ghost function Stage(report: Report, accepted: set<string>, k: nat): set<string> {
    if k == 0 then {}
    else set name | name in report.Keys && Supported(report, accepted, name, Stage(report, accepted, k - 1))
  }

  lemma {:induction false} StagesGrow(report: Report, accepted: set<string>, k: nat)
    ensures Stage(report, accepted, k) <= Stage(report, accepted, k + 1)
  {
    if k > 0 {
      StagesGrow(report, accepted, k - 1);
    }
  }

  /** Until the stages stop growing, stage k has at least k members. */
  lemma {:induction false} StagesStop(report: Report, accepted: set<string>, k: nat) returns (j: nat)
    ensures Stage(report, accepted, j) == Stage(report, accepted, j + 1) || (j == k && |Stage(report, accepted, k)| >= k)
  {
    if k == 0 {
      j := 0;
    } else {
      j := StagesStop(report, accepted, k - 1);
      if Stage(report, accepted, j) != Stage(report, accepted, j + 1) {
        StagesGrow(report, accepted, k - 1);
        SmallerThanProperSuperset(Stage(report, accepted, k - 1), Stage(report, accepted, k));
        j := k;
      }
    }
  }

  lemma SmallerThanProperSuperset<T>(a: set<T>, b: set<T>)
    requires a < b
    ensures |a| < |b|
  {
    assert b == a + (b - a);
  }

  /** Some stage is closed. */
  lemma SomeStageIsClosed(report: Report, accepted: set<string>) returns (k: nat)
    ensures Closed(report, accepted, Stage(report, accepted, k))
  {
    var bound := |report.Keys| + 1;
    k := StagesStop(report, accepted, bound);
    if Stage(report, accepted, k) != Stage(report, accepted, k + 1) {
      assert Stage(report, accepted, k) <= report.Keys;
      NoLargerThanSuperset(Stage(report, accepted, k), report.Keys);
    }
  }

  // ---- The recursion is the least fixed point ------------------------------------------------------

  lemma {:induction false} AcceptedIsInEveryClosedSet(
    report: Report, accepted: set<string>, name: string, visiting: set<string>, known: set<string>)
    requires ChainAccepted(report, accepted, name, visiting) && Closed(report, accepted, known)
    ensures name in known
    decreases report.Keys - visiting
  {
    forall p | Package(p) in Causes(report, name) ensures p in known {
      AcceptedIsInEveryClosedSet(report, accepted, p, visiting + {name}, known);
    }
    assert Supported(report, accepted, name, known);
  }

  /** A package supported within k rounds is accepted on any path that has not met a package of an
      earlier or the same round. */
  lemma {:induction false} StagedIsAccepted(
    report: Report, accepted: set<string>, name: string, visiting: set<string>, k: nat)
    requires name in Stage(report, accepted, k) && visiting !! Stage(report, accepted, k)
    ensures ChainAccepted(report, accepted, name, visiting)
    decreases k
  {
    var earlier := Stage(report, accepted, k - 1);
    StagesGrow(report, accepted, k - 1);
    if name in earlier {
      StagedIsAccepted(report, accepted, name, visiting, k - 1);
    } else {
      forall p | Package(p) in Causes(report, name) ensures ChainAccepted(report, accepted, p, visiting + {name}) {
        StagedIsAccepted(report, accepted, p, visiting + {name}, k - 1);
      }
    }
  }

  /** The path-set recursion decides exactly the least fixed point. */
  lemma ChainAcceptedIsLeastFixedPoint(report: Report, accepted: set<string>, name: string)
    ensures ChainAccepted(report, accepted, name, {}) <==> InLeast(report, accepted, name)
  {
    if ChainAccepted(report, accepted, name, {}) {
      forall known | Closed(report, accepted, known) ensures name in known {
        AcceptedIsInEveryClosedSet(report, accepted, name, {}, known);
      }
    }
    if InLeast(report, accepted, name) {
      var k := SomeStageIsClosed(report, accepted);
      StagedIsAccepted(report, accepted, name, {}, k);
    }
  }

  ghost predicate BlamesWithin(report: Report, name: string, packages: set<string>) {
    exists p :: Package(p) in Causes(report, name) && p in packages
  }

  /** Packages that keep blaming each other, such as a cycle, are never accepted. */
  lemma CyclesAreNeverAccepted(report: Report, accepted: set<string>, cycle: set<string>, name: string)
    requires name in cycle
    requires forall n :: n in cycle ==> BlamesWithin(report, n, cycle)
    ensures !ChainAccepted(report, accepted, name, {})
  {
    var outside := report.Keys - cycle;
    forall n | Supported(report, accepted, n, outside) ensures n in outside {
      if n in cycle {
        assert BlamesWithin(report, n, cycle);
      }
    }
    if ChainAccepted(report, accepted, name, {}) {
      AcceptedIsInEveryClosedSet(report, accepted, name, {}, outside);
    }
  }

  /** Accepting more advisories never un-accepts a package, and neither does a shorter path. */
  lemma {:induction false} AcceptingMoreKeepsAccepted(
    report: Report, accepted: set<string>, more: set<string>, name: string, visiting: set<string>, fewer: set<string>)
    requires accepted <= more && fewer <= visiting && ChainAccepted(report, accepted, name, visiting)
    ensures ChainAccepted(report, more, name, fewer)
    decreases report.Keys - visiting
  {
    forall p | Package(p) in Causes(report, name) ensures ChainAccepted(report, more, p, fewer + {name}) {
      AcceptingMoreKeepsAccepted(report, accepted, more, p, visiting + {name}, fewer + {name});
    }
  }

  /** A package is let through exactly when it blames something, and everything it blames is an advisory with at least
      one identifier and only accepted ones, or a package that is let through itself. */
  lemma AcceptedByItsCauses(report: Report, accepted: set<string>, name: string)
    ensures ChainAccepted(report, accepted, name, {}) <==> (
              && name in report && report[name].via.Some? && report[name].via.value != []
              && forall cause :: cause in report[name].via.value ==>
                   || (cause.Advisory? && |cause.ids| > 0 && forall id :: id in cause.ids ==> id in accepted)
                   || (cause.Package? && ChainAccepted(report, accepted, cause.name, {})))
  {
    if ChainAccepted(report, accepted, name, {}) {
      forall p | Package(p) in Causes(report, name) ensures ChainAccepted(report, accepted, p, {}) {
        AcceptingMoreKeepsAccepted(report, accepted, accepted, p, {} + {name}, {});
      }
    } else if Causes(report, name) != [] {
      CausesCarryOver(report, accepted, name);
    }
  }

  /** Enough to keep a package out. */
  ghost predicate Blocks(report: Report, accepted: set<string>, cause: Cause) {
    match cause
    case Package(p) => !ChainAccepted(report, accepted, p, {})
    case Advisory(ids) => ids == [] || exists id :: id in ids && id !in accepted
    case Other => true
  }

  lemma CausesCarryOver(report: Report, accepted: set<string>, name: string)
    requires Causes(report, name) != [] && !ChainAccepted(report, accepted, name, {})
    ensures exists cause :: cause in Causes(report, name) && Blocks(report, accepted, cause)
  {
    ChainAcceptedIsLeastFixedPoint(report, accepted, name);
    var known :| Closed(report, accepted, known) && name !in known;
    assert !Supported(report, accepted, name, known);
    forall p | p !in known ensures !ChainAccepted(report, accepted, p, {}) {
      ChainAcceptedIsLeastFixedPoint(report, accepted, p);
    }
  }

  /** One identifier that is not accepted, or none at all, in one advisory keeps its package out, whatever else it blames. */
  lemma OneIdentifierKeepsOut(report: Report, accepted: set<string>, name: string, ids: seq<string>)
    requires name in report && report[name].via.Some? && Advisory(ids) in report[name].via.value
    requires ids == [] || exists id :: id in ids && id !in accepted
    ensures !ChainAccepted(report, accepted, name, {})
  {
    AcceptedByItsCauses(report, accepted, name);
  }
}
