/**
 * The chat messages the bot writes about a solution: the group listing and
 * the choice between the proposal and the apology.
 */
module BotText {
  import opened Selection
  import opened WowGroups

  // ----- Decimal rendering of group ids -----

  function DigitChar(d: nat): char
    requires d < 10
  {
    "0123456789"[d]
  }

  lemma DigitCharValue(d: nat)
    requires d < 10
    ensures DigitChar(d) as int - '0' as int == d
  {
  }

  predicate IsDigits(s: string) {
    forall k :: 0 <= k < |s| ==> '0' <= s[k] <= '9'
  }

  /** The decimal digits of n, most significant first, without leading zeros. */
  function NatToDecimal(n: nat): (s: string)
    ensures |s| >= 1 && IsDigits(s)
    ensures s[0] == '0' ==> n == 0
    decreases n
  {
    if n < 10 then [DigitChar(n)] else NatToDecimal(n / 10) + [DigitChar(n % 10)]
  }

  /** The number a string of decimal digits denotes. */
  function DecimalValue(s: string): nat
    requires IsDigits(s)
  {
    if |s| == 0 then 0 else DecimalValue(s[..|s| - 1]) * 10 + (s[|s| - 1] as int - '0' as int)
  }

  lemma {:induction false} DecimalRoundTrip(n: nat)
    ensures DecimalValue(NatToDecimal(n)) == n
    decreases n
  {
    if n < 10 {
      DigitCharValue(n);
      assert NatToDecimal(n)[..0] == "";
    } else {
      DecimalRoundTrip(n / 10);
      var front := NatToDecimal(n / 10);
      var s := front + [DigitChar(n % 10)];
      assert s[..|s| - 1] == front;
      DigitCharValue(n % 10);
      assert DecimalValue(s) == DecimalValue(front) * 10 + n % 10;
    }
  }

  /** Python's str of an integer: a minus sign before the digits of a negative number. */
  function IntToDecimal(i: int): string
  {
    if i < 0 then "-" + NatToDecimal(-i) else NatToDecimal(i)
  }

  // ----- Capitalisation, on the ASCII letters -----

  function Upper(c: char): char
  {
    if 'a' <= c <= 'z' then (c as int - 32) as char else c
  }

  function Lower(c: char): char
  {
    if 'A' <= c <= 'Z' then (c as int + 32) as char else c
  }

  /** The first character in upper case, the others in lower case. */
  function Capitalize(s: string): (r: string)
    ensures |r| == |s|
  {
    if |s| == 0 then "" else [Upper(s[0])] + seq(|s| - 1, k requires 0 <= k < |s| - 1 => Lower(s[k + 1]))
  }

  /** Capitalising twice is capitalising once. */
  lemma CapitalizeIdempotent(s: string)
    ensures Capitalize(Capitalize(s)) == Capitalize(s)
  {
    if |s| > 0 {
      var r := Capitalize(s);
      var rr := Capitalize(r);
      assert rr[0] == Upper(Upper(s[0]));
      forall k | 1 <= k < |s| ensures rr[k] == r[k] {
        assert r[k] == Lower(s[k]);
      }
    }
  }

  // ----- The group listing -----

  /** One line per member: indented dash, capitalised name, a tab and the role. */
  function MemberLine(m: Member): string
  {
    "    - " + Capitalize(m.name) + "\t" + m.role + "\n"
  }

  function MembersText(ms: seq<Member>): string
  {
    if |ms| == 0 then "" else MembersText(ms[..|ms| - 1]) + MemberLine(ms[|ms| - 1])
  }

  function GroupHeader(g: Group): string
  {
    "Groupe " + IntToDecimal(g.id) + "\n"
  }

  /** A group's block: its header, its member lines and a blank line. */
  function GroupText(g: Group): string
  {
    GroupHeader(g) + MembersText(g.members) + "\n"
  }

  function GroupsText(gs: seq<Group>): string
  {
    if |gs| == 0 then "" else GroupsText(gs[..|gs| - 1]) + GroupText(gs[|gs| - 1])
  }

  /** The listing of a solution; the empty mapping has no groups to list. */
  function SolutionText(sol: Solution): string
  {
    match sol
    case GroupList(gs) => GroupsText(gs)
    case EmptyMapping => ""
  }

  /** Every group is listed in a non-empty block; so the listing is empty exactly when there is no group. */
  lemma GroupsTextEmpty(gs: seq<Group>)
    ensures GroupsText(gs) == "" <==> |gs| == 0
  {
    if |gs| > 0 {
      var g := gs[|gs| - 1];
      assert |GroupText(g)| > 0;
    }
  }

  /** The listing of the groups [g] starts with "Groupe ", the id, and a line break. */
  lemma SingleGroupText(g: Group)
    ensures GroupsText([g]) == "Groupe " + IntToDecimal(g.id) + "\n" + MembersText(g.members) + "\n"
  {
    assert [g][..0] == [];
  }

  /** The renderer: one block per group, in order, each with one line per member, in order. */
  method FormatGroup(solution: Solution) returns (strGroups: string)
    ensures strGroups == SolutionText(solution)
  {
    strGroups := "";
    var groups := if solution.GroupList? then solution.groups else [];
    for g := 0 to |groups|
      invariant strGroups == GroupsText(groups[..g])
    {
      var group := groups[g];
      var lines := FormatMembers(group.members);
      GroupsTextStep(groups, g);
      strGroups := strGroups + ("Groupe " + IntToDecimal(group.id) + "\n") + lines + "\n";
    }
    assert groups[..|groups|] == groups;
  }

  /** The member lines of one group, accumulated in member order. */
  method FormatMembers(members: seq<Member>) returns (lines: string)
    ensures lines == MembersText(members)
  {
    lines := "";
    for k := 0 to |members|
      invariant lines == MembersText(members[..k])
    {
      var name := Capitalize(members[k].name);
      MembersTextStep(members, k);
      lines := lines + ("    - " + name + "\t" + members[k].role + "\n");
    }
    assert members[..|members|] == members;
  }

  lemma GroupsTextStep(gs: seq<Group>, g: nat)
    requires g < |gs|
    ensures GroupsText(gs[..g + 1]) == GroupsText(gs[..g]) + GroupHeader(gs[g]) + MembersText(gs[g].members) + "\n"
  {
    assert gs[..g + 1][..g] == gs[..g];
  }

  lemma MembersTextStep(ms: seq<Member>, k: nat)
    requires k < |ms|
    ensures MembersText(ms[..k + 1]) == MembersText(ms[..k]) + MemberLine(ms[k])
  {
    assert ms[..k + 1][..k] == ms[..k];
  }

  // ----- The answer to a stopped poll -----

  const Apology: string := "Je suis désolé, " + "je n'ai pas trouvé de solution."
  const Proposal: string := "Voici ma proposition:\n\n"

  /** Python's len of the answer: the number of groups, or 0 keys for the empty mapping. */
  function SolutionLength(sol: Solution): nat
  {
    match sol
    case GroupList(gs) => |gs|
    case EmptyMapping => 0
  }

  /** The apology for an answer of length 0, the proposal followed by the listing otherwise. */
  function PollResultText(sol: Solution): string
  {
    if SolutionLength(sol) == 0 then Apology else Proposal + SolutionText(sol)
  }

  method DisplayPollResult(solution: Solution) returns (text: string)
    ensures text == PollResultText(solution)
  {
    if SolutionLength(solution) == 0 {
      text := Apology;
    } else {
      var listing := FormatGroup(solution);
      text := Proposal + listing;
    }
  }

  /**
   * The apology is sent exactly when the answer has length 0, which is both
   * the empty mapping and an empty group list: exactly the answers whose
   * listing is empty.
   */
  lemma ApologyExactlyWhenEmpty(sol: Solution)
    ensures PollResultText(sol) == Apology <==> SolutionLength(sol) == 0
    ensures SolutionLength(sol) == 0 <==> SolutionText(sol) == ""
  {
    if SolutionLength(sol) != 0 {
      assert PollResultText(sol)[0] == 'V';
    }
    if sol.GroupList? {
      GroupsTextEmpty(sol.groups);
    }
  }
}
