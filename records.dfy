/**
 * The member record the scraper builds (one Python dict per legislator) and the
 * per-chamber counts `save_to_json` reports.
 */
module Records {
  import opened Wrappers

  /** The `chamber` value of every record built from the Chamber of Deputies listing. */
  const DEPUTIES_CHAMBER: string := "Camera Deputaților"
  /** The `chamber` value of every record built from the Senate listing. */
  const SENATE_CHAMBER: string := "Senat"

  /**
   * One member dict: `name`, `county`, `party`, `chamber` and `profile_url` come from a
   * listing page; `email`, `phone` and `cv_url` start as `None` and are filled by enrichment.
   * `profile_url` is optional because enrichment accepts a dict whose value is `None`.
   */
  datatype Member = Member(
    name: string,
    county: string,
    party: string,
    chamber: string,
    profileUrl: Option<string>,
    email: Option<string>,
    phone: Option<string>,
    cvUrl: Option<string>)

  /** `len([m for m in members if m["chamber"] == chamber])`. */
  function CountChamber(members: seq<Member>, chamber: string): (n: nat)
    ensures n <= |members|
  {
    if members == [] then 0
    else (if members[0].chamber == chamber then 1 else 0) + CountChamber(members[1..], chamber)
  }

  /** `m.get("email")` is truthy: present and not the empty string. */
  predicate HasEmail(m: Member) {
    m.email.Some? && m.email.value != ""
  }

  /** `len([m for m in members if m.get("email")])`. */
  function CountWithEmail(members: seq<Member>): (n: nat)
    ensures n <= |members|
  {
    if members == [] then 0
    else (if HasEmail(members[0]) then 1 else 0) + CountWithEmail(members[1..])
  }

  /** Counting a chamber over two lists added together adds the counts. */
  lemma {:induction false} CountChamberAppend(a: seq<Member>, b: seq<Member>, chamber: string)
    ensures CountChamber(a + b, chamber) == CountChamber(a, chamber) + CountChamber(b, chamber)
  {
    if a == [] {
      assert a + b == b;
    } else {
      assert (a + b)[1..] == a[1..] + b;
      CountChamberAppend(a[1..], b, chamber);
    }
  }

  /** A list whose every record has chamber `c` counts fully for `c` and not at all for any other. */
  lemma {:induction false} CountChamberUniform(members: seq<Member>, c: string, other: string)
    requires forall i :: 0 <= i < |members| ==> members[i].chamber == c
    requires other != c
    ensures CountChamber(members, c) == |members|
    ensures CountChamber(members, other) == 0
  {
    if members != [] {
      CountChamberUniform(members[1..], c, other);
    }
  }

  /** Two lists whose records agree on `chamber` position by position have the same chamber counts. */
  lemma {:induction false} CountChamberPointwise(a: seq<Member>, b: seq<Member>, chamber: string)
    requires |a| == |b|
    requires forall i :: 0 <= i < |a| ==> a[i].chamber == b[i].chamber
    ensures CountChamber(a, chamber) == CountChamber(b, chamber)
  {
    if a != [] {
      CountChamberPointwise(a[1..], b[1..], chamber);
    }
  }

  /** If every record that had an email still has one, the email count cannot drop. */
  lemma {:induction false} CountWithEmailMonotone(a: seq<Member>, b: seq<Member>)
    requires |a| == |b|
    requires forall i :: 0 <= i < |a| ==> HasEmail(a[i]) ==> HasEmail(b[i])
    ensures CountWithEmail(a) <= CountWithEmail(b)
  {
    if a != [] {
      CountWithEmailMonotone(a[1..], b[1..]);
    }
  }

  /** Records of two different chambers are counted apart, so the two counts never exceed the total. */
  lemma {:induction false} ChambersDisjoint(members: seq<Member>, a: string, b: string)
    requires a != b
    ensures CountChamber(members, a) + CountChamber(members, b) <= |members|
  {
    if members != [] {
      ChambersDisjoint(members[1..], a, b);
    }
  }

  /** Counting emails over two lists added together adds the counts. */
  lemma {:induction false} CountWithEmailAppend(a: seq<Member>, b: seq<Member>)
    ensures CountWithEmail(a + b) == CountWithEmail(a) + CountWithEmail(b)
  {
    if a == [] {
      assert a + b == b;
    } else {
      assert (a + b)[1..] == a[1..] + b;
      CountWithEmailAppend(a[1..], b);
    }
  }

  /** Records without an email are not counted. */
  lemma {:induction false} CountWithEmailNone(members: seq<Member>)
    requires forall i :: 0 <= i < |members| ==> members[i].email.None?
    ensures CountWithEmail(members) == 0
  {
    if members != [] {
      CountWithEmailNone(members[1..]);
    }
  }
}
