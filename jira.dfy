/**
 * The mock ticket generator (backend/generate_jira.py): ten SAP and ten CRM support
 * tickets with numbered ids and issues, written out as the knowledge source for both
 * namespaces.
 */
module Jira {
  import opened PyStr

  /** One ticket, with the four keys the generator writes. */
  datatype Ticket = Ticket(id: string, system: string, issue: string, resolution: string)

  const TicketsPerGroup: nat := 10

  const SapSystem: string := "SAP FI"
  const SapIssue: string := "User cannot navigate to Fiori app "
  const SapResolution: string :=
    "Instructed user to click the tile group icon at the top-left of the Launchpad."

  const CrmSystem: string := "Salesforce CRM"
  const CrmIssue: string := "User cannot convert Lead "
  const CrmResolution: string :=
    "Instructed user to click the 'Convert' button in the top right highlight panel."

  /** The `i`-th SAP ticket, counting from 1. */
  function SapTicket(i: nat): Ticket {
    Ticket("SAP-" + NatToString(1000 + i), SapSystem, SapIssue + NatToString(i) + ".", SapResolution)
  }

  /** The `i`-th CRM ticket, counting from 1. */
  function CrmTicket(i: nat): Ticket {
    Ticket("CRM-" + NatToString(2000 + i), CrmSystem, CrmIssue + NatToString(i) + ".", CrmResolution)
  }

  /** Position `p` of the generated list: the SAP tickets first, then the CRM tickets. */
  function MockTicket(p: nat): Ticket
    requires p < 2 * TicketsPerGroup
  {
    if p < TicketsPerGroup then SapTicket(p + 1) else CrmTicket(p - TicketsPerGroup + 1)
  }

  lemma MockTicketSap(i: nat)
    requires 1 <= i <= TicketsPerGroup
    ensures MockTicket(i - 1) == SapTicket(i)
  {
  }

  lemma MockTicketCrm(i: nat)
    requires 1 <= i <= TicketsPerGroup
    ensures MockTicket(TicketsPerGroup + i - 1) == CrmTicket(i)
  {
  }

  /** The two `for i in range(1, 11)` loops appending to `tickets`. */
  method GenerateMockJira() returns (tickets: seq<Ticket>)
    ensures |tickets| == 2 * TicketsPerGroup
    ensures forall p :: 0 <= p < |tickets| ==> tickets[p] == MockTicket(p)
  {
    tickets := [];
    for i := 1 to TicketsPerGroup + 1
      invariant |tickets| == i - 1
      invariant forall p :: 0 <= p < |tickets| ==> tickets[p] == MockTicket(p)
    {
      MockTicketSap(i);
      tickets := tickets + [SapTicket(i)];
    }
    assert |tickets| == TicketsPerGroup;
    for i := 1 to TicketsPerGroup + 1
      invariant |tickets| == TicketsPerGroup + i - 1
      invariant forall p :: 0 <= p < |tickets| ==> tickets[p] == MockTicket(p)
    {
      MockTicketCrm(i);
      tickets := tickets + [CrmTicket(i)];
    }
  }

  /** Strips a fixed prefix back off a concatenation. */
  lemma DropPrefix(prefix: string, a: string, b: string)
    requires prefix + a == prefix + b
    ensures a == b
  {
    assert a == (prefix + a)[|prefix|..];
    assert b == (prefix + b)[|prefix|..];
  }

  /** SAP ids are distinct. */
  lemma SapIdsDistinct(i: nat, j: nat)
    requires i != j
    ensures SapTicket(i).id != SapTicket(j).id
  {
    if SapTicket(i).id == SapTicket(j).id {
      DropPrefix("SAP-", NatToString(1000 + i), NatToString(1000 + j));
      NatToStringInjective(1000 + i, 1000 + j);
    }
  }

  /** CRM ids are distinct. */
  lemma CrmIdsDistinct(i: nat, j: nat)
    requires i != j
    ensures CrmTicket(i).id != CrmTicket(j).id
  {
    if CrmTicket(i).id == CrmTicket(j).id {
      DropPrefix("CRM-", NatToString(2000 + i), NatToString(2000 + j));
      NatToStringInjective(2000 + i, 2000 + j);
    }
  }

  /** A SAP id never equals a CRM id: they start with different letters. */
  lemma GroupsIdsDiffer(i: nat, j: nat)
    ensures SapTicket(i).id != CrmTicket(j).id
  {
    assert SapTicket(i).id[0] == 'S' && CrmTicket(j).id[0] == 'C';
  }

  /** Position `p` holds the SAP ticket numbered `p + 1` or the CRM ticket numbered `p - 9`. */
  lemma MockTicketGroups(p: nat)
    requires p < 2 * TicketsPerGroup
    ensures p < TicketsPerGroup ==> MockTicket(p).id == SapTicket(p + 1).id
    ensures p >= TicketsPerGroup ==> MockTicket(p).id == CrmTicket(p - TicketsPerGroup + 1).id
  {
  }

  lemma SapPositionsIdsDistinct(p: nat, q: nat)
    requires p < TicketsPerGroup && q < TicketsPerGroup && p != q
    ensures MockTicket(p).id != MockTicket(q).id
  {
    MockTicketGroups(p);
    MockTicketGroups(q);
    SapIdsDistinct(p + 1, q + 1);
  }

  lemma CrmPositionsIdsDistinct(p: nat, q: nat)
    requires TicketsPerGroup <= p < 2 * TicketsPerGroup && TicketsPerGroup <= q < 2 * TicketsPerGroup && p != q
    ensures MockTicket(p).id != MockTicket(q).id
  {
    MockTicketGroups(p);
    MockTicketGroups(q);
    CrmIdsDistinct(p - TicketsPerGroup + 1, q - TicketsPerGroup + 1);
  }

  lemma CrossGroupIdsDistinct(p: nat, q: nat)
    requires p < TicketsPerGroup <= q < 2 * TicketsPerGroup
    ensures MockTicket(p).id != MockTicket(q).id
  {
    MockTicketGroups(p);
    MockTicketGroups(q);
    GroupsIdsDiffer(p + 1, q - TicketsPerGroup + 1);
  }

  /** All twenty generated ids are distinct. */
  lemma MockTicketIdsDistinct(p: nat, q: nat)
    requires p < 2 * TicketsPerGroup && q < 2 * TicketsPerGroup && p != q
    ensures MockTicket(p).id != MockTicket(q).id
  {
    if p < TicketsPerGroup && q < TicketsPerGroup {
      SapPositionsIdsDistinct(p, q);
    } else if p >= TicketsPerGroup && q >= TicketsPerGroup {
      CrmPositionsIdsDistinct(p, q);
    } else if p < q {
      CrossGroupIdsDistinct(p, q);
    } else {
      CrossGroupIdsDistinct(q, p);
    }
  }

  /** The issue of the `i`-th ticket of either group names the number `i`. */
  lemma IssueNamesNumber(i: nat)
    ensures Contains(SapTicket(i).issue, NatToString(i))
    ensures Contains(CrmTicket(i).issue, NatToString(i))
  {
    ContainsInfix(SapIssue, NatToString(i), ".");
    ContainsInfix(CrmIssue, NatToString(i), ".");
  }

  /** The first ten tickets are SAP FI tickets sharing one resolution, the last ten CRM tickets sharing another. */
  lemma GroupsShareResolution(p: nat)
    requires p < 2 * TicketsPerGroup
    ensures p < TicketsPerGroup ==> MockTicket(p).system == SapSystem && MockTicket(p).resolution == SapResolution
    ensures p >= TicketsPerGroup ==> MockTicket(p).system == CrmSystem && MockTicket(p).resolution == CrmResolution
  {
  }

  /** The first SAP id is `SAP-1001` and the last CRM id is `CRM-2010`. */
  lemma FirstAndLastIds()
    ensures MockTicket(0).id == "SAP-1001"
    ensures MockTicket(2 * TicketsPerGroup - 1).id == "CRM-2010"
  {
    assert NatToString(1001) == NatToString(100) + [DigitChar(1)];
    assert NatToString(100) == NatToString(10) + [DigitChar(0)];
    assert NatToString(10) == NatToString(1) + [DigitChar(0)];
    assert NatToString(2010) == NatToString(201) + [DigitChar(0)];
    assert NatToString(201) == NatToString(20) + [DigitChar(1)];
    assert NatToString(20) == NatToString(2) + [DigitChar(0)];
  }
}
