/** The standing block keeps its framing, tells what it hides, and fits its budget. */
module RenderSafety {
  import opened Basics
  import Decimal
  import opened Render
  import opened Sorting

  // --------------------------------------------------------------- plans tighten ---

  // q shows no more of anything than p; a text cap of 0 leaves the text as long as it may be.
  predicate Tighter(p: Plan, q: Plan) {
    q.rosterCap <= p.rosterCap && q.claimsCap <= p.claimsCap && q.digestCap <= p.digestCap &&
    (p.textCap == 0 || 0 < q.textCap <= p.textCap) && q.claimCap <= p.claimCap && q.subjectCap <= p.subjectCap &&
    (p.dropDetails ==> q.dropDetails) && (p.dropClaim ==> q.dropClaim) && (p.dropNotices ==> q.dropNotices)
  }

  // Everything but the items up to the floor, and the notices, has been given up.
  predicate Bare(p: Plan) {
    p.rosterCap == 0 && p.claimsCap == 0 && p.dropDetails && p.dropClaim && p.textCap == 24 && p.subjectCap == 32
  }

  // A reachable plan: each lever where the order of trimming allows it to be.
  predicate Reachable(p: Plan, floor: nat) {
    (p.textCap == 0 || p.textCap == 120 || p.textCap == 80 || p.textCap == 60 || p.textCap == 40 || p.textCap == 24) &&
    ((p.claimCap == 40 && p.subjectCap == 60) || (p.claimCap == 24 && p.subjectCap == 32)) &&
    (p.digestCap < floor ==> Bare(p)) && (p.dropNotices ==> Bare(p) && p.digestCap == 0)
  }

  lemma {:induction false} TrimmingNeverLoosens(plans: seq<Plan>, floor: nat, i: nat, j: nat)
    requires IsTrimming(plans, floor) && floor <= INJECT_CAP && i <= j < |plans|
    ensures Tighter(plans[i], plans[j]) && Reachable(plans[j], floor)
    decreases j
  {
    if j > 0 {
      TrimmingNeverLoosens(plans, floor, if i < j then i else j - 1, j - 1);
      OneNotch(plans[j - 1], floor);
    }
  }

  lemma OneNotch(p: Plan, floor: nat)
    requires Reachable(p, floor) && floor <= INJECT_CAP
    ensures Tighter(p, Tightened(p, floor)) && Reachable(Tightened(p, floor), floor)
  {
  }

  // ------------------------------------------------------------------ the framing ---

  // Whatever the plan, the block ends with the framing and the closing tag, word for word.
  lemma FramingIsVerbatim(slot: Slot, v: View, plan: Plan)
    ensures Assemble(slot, v, plan) ==
            Join(Upper(slot, v, plan), "\n") + "\n" + (FRAMING_1 + "\n" + FRAMING_2 + "\n" + FRAMING_3 + "\n" + BLOCK_CLOSE)
  {
    var tail := [Framing(), BLOCK_CLOSE];
    JoinConcat(Upper(slot, v, plan), tail, "\n");
    assert tail[1..] == [BLOCK_CLOSE];
    assert Join(tail, "\n") == Framing() + "\n" + BLOCK_CLOSE;
  }

  // ---------------------------------------------------------------- the accounting ---

  // What a block shows and says it hides.
  datatype Tally = Tally(shown: nat, hidden: nat)

  // The hidden count is announced whenever something is hidden, and only then.
  ghost predicate Announces(text: string, hidden: nat, noun: string, shown: string, none: string) {
    if hidden > 0 then text == (if shown != "" then shown + " \U{B7} " else "") + "+" + Digits(hidden) + noun
    else text == if shown != "" then shown else none
  }

  // Peers: what is listed and what is announced as hidden make up everyone not gone.
  lemma PeersAddUp(slot: Slot, v: View, plan: Plan) returns (t: Tally, text: string)
    ensures t.shown + t.hidden == |People(v.roster)| && t.shown <= plan.rosterCap
    ensures RosterText(slot, v, plan) ==
            text + When(v.syncPending, SYNC_PENDING) + When(v.postingStopped, POSTING_STOPPED)
    ensures Announces(text, t.hidden, " peers", Join(RosterEntries(slot, People(v.roster)[..t.shown], plan), " \U{B7} "), "none live")
  {
    var people := People(v.roster);
    t := Tally(Min(|people|, plan.rosterCap), |people| - Min(|people|, plan.rosterCap));
    text := Listing(RosterEntries(slot, First(people, plan.rosterCap), plan), t.hidden, " peers", "none live");
    assert First(people, plan.rosterCap) == people[..t.shown];
    ListingAnnounces(RosterEntries(slot, people[..t.shown], plan), t.hidden, " peers", "none live");
  }

  // Claims likewise.
  lemma ClaimsAddUp(slot: Slot, v: View, plan: Plan) returns (t: Tally, text: string)
    ensures t.shown + t.hidden == |v.claims| && t.shown <= plan.claimsCap
    ensures ClaimsText(slot, v, plan) ==
            text + When(v.nonMemberTasks, NON_MEMBER_TASKS) + When(v.olderChatterGone, OLDER_CHATTER_GONE)
    ensures Announces(text, t.hidden, " claims", Join(ClaimEntries(slot, v.claims[..t.shown], plan), " \U{B7} "), "none")
  {
    t := Tally(Min(|v.claims|, plan.claimsCap), |v.claims| - Min(|v.claims|, plan.claimsCap));
    text := Listing(ClaimEntries(slot, First(v.claims, plan.claimsCap), plan), t.hidden, " claims", "none");
    assert First(v.claims, plan.claimsCap) == v.claims[..t.shown];
    ListingAnnounces(ClaimEntries(slot, v.claims[..t.shown], plan), t.hidden, " claims", "none");
  }

  lemma ListingAnnounces(entries: seq<string>, hidden: nat, noun: string, none: string)
    ensures Announces(Listing(entries, hidden, noun, none), hidden, noun, Join(entries, SEPARATOR), none)
  {
    if hidden > 0 {
      var shown := Join(entries, SEPARATOR);
      var text := (if shown != "" then shown + SEPARATOR else "") + "+" + Digits(hidden) + noun;
      assert |text| >= 1;
    }
  }

  // Digest items, unless muted: those rendered, by count, and those announced as waiting make up all there are
  // here and elsewhere; muted, none is rendered.
  lemma ItemsAddUp(slot: Slot, v: View, plan: Plan) returns (t: Tally)
    ensures v.muted ==> t.shown == 0 && DigestLines(slot, v, plan) == ["muted"]
    ensures !v.muted ==>
      t.shown + t.hidden == |v.items| + Max(0, v.more) && t.shown == Min(|v.items|, plan.digestCap) &&
      DigestLines(slot, v, plan) ==
        if t.shown == 0 && t.hidden == 0 then []
        else ["new " + Digits(t.shown) + ": " + Join(ItemLines(slot, v.items[..t.shown], plan.textCap), "\n       ") +
              (if t.hidden == 0 then ""
               else (if t.shown == 0 then "+" else "\n       +") + Digits(t.hidden) + " more \U{2014} /handshake status")]
  {
    if v.muted {
      t := Tally(0, 0);
    } else {
      var k := Min(|v.items|, plan.digestCap);
      t := Tally(k, MoreItems(v, plan));
      assert First(v.items, plan.digestCap) == v.items[..k];
      assert "\n" + INDENT == "\n       " && "\n" + INDENT + "+" == "\n       +" && OVERFLOW == " more \U{2014} /handshake status";
      if k == 0 {
        assert ItemLines(slot, v.items[..k], plan.textCap) == [];
        assert Digits(0) == "0";
        assert "new " + "0" + ": " + "" + ("+" + Digits(t.hidden) + OVERFLOW) == "new 0: +" + Digits(t.hidden) + OVERFLOW;
      }
    }
  }

  // ------------------------------------------------------------------- the budget ---

  lemma FixedLengths()
    ensures |FRAMING_1| == 70 && |FRAMING_2| == 67 && |FRAMING_3| == 67 && |BLOCK_CLOSE| == 12
    ensures |OVERFLOW| == 25 && |SYNC_PENDING| == 15 && |POSTING_STOPPED| == 25
    ensures |NON_MEMBER_TASKS| == 33 && |OLDER_CHATTER_GONE| == 21
  {
  }

  lemma {:induction false} JoinedLength(parts: seq<string>)
    ensures |Join(parts, "\n")| == Total(parts) + Max(0, |parts| - 1)
  {
    if parts != [] { JoinedLength(parts[1..]); }
  }

  function Total(parts: seq<string>): nat { if parts == [] then 0 else |parts[0]| + Total(parts[1..]) }

  lemma {:induction false} TotalConcat(a: seq<string>, b: seq<string>)
    ensures Total(a + b) == Total(a) + Total(b)
  {
    if a == [] {
      assert a + b == b;
    } else {
      assert (a + b)[1..] == a[1..] + b;
      TotalConcat(a[1..], b);
    }
  }

  lemma TotalOfThree(a: string, b: string, c: string)
    ensures Total([a, b, c]) == |a| + |b| + |c|
  {
    var s := [a, b, c];
    assert s[1..][1..][1..] == [];
    assert Total(s) == |a| + Total(s[1..]);
    assert Total(s[1..]) == |b| + Total(s[1..][1..]);
    assert Total(s[1..][1..]) == |c| + Total(s[1..][1..][1..]);
  }

  lemma TotalOfTwo(a: string, b: string)
    ensures Total([a, b]) == |a| + |b|
  {
    var s := [a, b];
    assert s[1..][1..] == [];
    assert Total(s) == |a| + Total(s[1..]);
    assert Total(s[1..]) == |b| + Total(s[1..][1..]);
  }

  // The digits the tightest block prints.
  function CountDigits(v: View): nat {
    |Digits(|People(v.roster)|)| + |Digits(|v.claims|)| + |Digits(|v.items| + Max(0, v.more))|
  }

  lemma TightRoster(slot: Slot, v: View)
    ensures |RosterText(slot, v, LAST)| <= |Digits(|People(v.roster)|)| + 48
  {
    FixedLengths();
    var people := People(v.roster);
    assert First(people, LAST.rosterCap) == [];
    assert RosterEntries(slot, [], LAST) == [];
  }

  lemma TightClaims(slot: Slot, v: View)
    ensures |ClaimsText(slot, v, LAST)| <= |Digits(|v.claims|)| + 62
  {
    FixedLengths();
    assert First(v.claims, LAST.claimsCap) == [];
    assert ClaimEntries(slot, [], LAST) == [];
  }

  lemma TightDigest(slot: Slot, v: View)
    ensures |DigestLines(slot, v, LAST)| <= 1
    ensures Total(DigestLines(slot, v, LAST)) <= |Digits(|v.items| + Max(0, v.more))| + 33
  {
    FixedLengths();
    assert First(v.items, LAST.digestCap) == [];
    var lines := DigestLines(slot, v, LAST);
    if lines != [] { assert lines[1..] == []; }
  }

  lemma BlockLength(a: string, b: string, c: string, digest: seq<string>, f: string, g: string)
    requires |digest| <= 1
    ensures |Join([a, b, c] + digest + [f, g], "\n")| <= |a| + |b| + |c| + Total(digest) + |f| + |g| + 5
  {
    TotalConcat([a, b, c] + digest, [f, g]);
    TotalConcat([a, b, c], digest);
    TotalOfThree(a, b, c);
    TotalOfTwo(f, g);
    JoinedLength([a, b, c] + digest + [f, g]);
  }

  lemma OpenTagLength(slot: Slot, v: View)
    requires |slot(v.ws, WS_NAME_CAP, "name")| <= WS_NAME_CAP
    ensures |OpenTag(slot, v)| <= 55
  {
  }

  lemma FramingLength()
    ensures |Framing()| == 206
  {
    FixedLengths();
  }

  // With every lever pulled the block is at most 436 characters and the digits of three counts.
  lemma TightestBlock(slot: Slot, v: View)
    requires |slot(v.ws, WS_NAME_CAP, "name")| <= WS_NAME_CAP
    ensures |Assemble(slot, v, LAST)| <= 436 + CountDigits(v)
  {
    var open, digest := OpenTag(slot, v), DigestLines(slot, v, LAST);
    var peers, claims := "peers: " + RosterText(slot, v, LAST), "claims: " + ClaimsText(slot, v, LAST);
    OpenTagLength(slot, v);
    FramingLength();
    TightRoster(slot, v);
    TightClaims(slot, v);
    TightDigest(slot, v);
    BlockLength(open, peers, claims, digest, Framing(), BLOCK_CLOSE);
    assert Upper(slot, v, LAST) == [open, peers, claims] + digest;
    assert |BLOCK_CLOSE| == 12;
  }

  // No slot is longer than its cap, but for a cap of one, where the cut leaves a character and the ellipsis; and
  // what was within the cap is left alone.
  lemma SlotsFit(escaped: Slot, value: string, cap: nat, field: string)
    requires cap > 0
    ensures |EscapeSlot(escaped)(value, cap, field)| <= Max(2, cap)
    ensures |EscapeSlot(escaped)(value, cap, field)| <= cap <==> (cap > 1 || |escaped(value, cap, field)| <= 1)
    ensures |escaped(value, cap, field)| <= cap ==> EscapeSlot(escaped)(value, cap, field) == escaped(value, cap, field)
    ensures |escaped(value, cap, field)| > cap > 1 ==>
      EscapeSlot(escaped)(value, cap, field) == escaped(value, cap, field)[..cap - 1] + "\U{2026}"
  {
    var t := escaped(value, cap, field);
    assert EscapeSlot(escaped)(value, cap, field) == Clamped(t, cap) && |ELLIPSIS| == 1;
    if |t| > cap { assert |t[..Max(1, cap - 1)]| == Max(1, cap - 1); }
  }

  // For counts of up to 54 digits each the block fits the budget, whatever the escaping.
  lemma BlockFitsTheBudget(escaped: Slot, v: View, plans: seq<Plan>, k: nat)
    requires |People(v.roster)| < Decimal.Power10(54) && |v.claims| < Decimal.Power10(54)
    requires |v.items| + Max(0, v.more) < Decimal.Power10(54)
    requires plans != [] && plans[|plans| - 1] == LAST && FirstThatFits(EscapeSlot(escaped), v, 600, plans, k)
    ensures |Assemble(EscapeSlot(escaped), v, plans[k])| <= 600
  {
    if k == |plans| - 1 {
      SlotsFit(escaped, v.ws, WS_NAME_CAP, "name");
      TightestBlock(EscapeSlot(escaped), v);
      Decimal.DigitsLength(|People(v.roster)|, 54);
      Decimal.DigitsLength(|v.claims|, 54);
      Decimal.DigitsLength(|v.items| + Max(0, v.more), 54);
    }
  }

  // ------------------------------------------------------------- what a line says ---

  // Everyone who is not gone, in order, and nobody else.
  lemma {:induction false} PeopleAreThere(roster: seq<Peer>) returns (at: seq<nat>)
    ensures Picks(People(roster), roster, at)
    ensures forall i: nat :: i in at <==> i < |roster| && roster[i].presence != "gone"
  {
    PeopleIsFilter(roster);
    at := FilterPositions(roster, (p: Peer) => p.presence != "gone");
  }

  lemma {:induction false} PeopleIsFilter(roster: seq<Peer>)
    ensures People(roster) == Filter(roster, (p: Peer) => p.presence != "gone")
  {
    if roster != [] { PeopleIsFilter(roster[1..]); }
  }

  // A peer's entry begins with its name.
  lemma PeerNameFirst(slot: Slot, p: Peer, plan: Plan)
    ensures slot(p.name, 24, "name") <= RosterEntry(slot, p, plan)
  {
  }

  // Then come its state, its claim in quotation marks unless the plan drops it, how long it has been silent unless it
  // is live, and its agents.
  lemma PeerReads(slot: Slot, p: Peer, plan: Plan) returns (state: string, claim: string, presence: string, agents: string)
    ensures RosterEntry(slot, p, plan) == slot(p.name, 24, "name") + state + claim + presence + agents
    ensures if p.state == "" then state == "" else state == " " + slot(p.state, 16, "name")
    ensures if p.claim == "" || plan.dropClaim then claim == ""
            else claim == " \"" + slot(p.claim, plan.claimCap, "subject") + "\""
    ensures if p.presence == "live" then presence == " (live)"
            else presence == " (" + (slot(p.presence, 8, "name") + " " + Digits(p.minutes) + "m") + ")"
    ensures if p.agents == 0 then agents == "" else agents == " (+" + Digits(p.agents) + " agents)"
  {
    state := if p.state != "" then " " + slot(p.state, 16, "name") else "";
    claim := if p.claim != "" && !plan.dropClaim then " \"" + slot(p.claim, plan.claimCap, "subject") + "\"" else "";
    presence := " (" + (if p.presence == "live" then "live" else slot(p.presence, 8, "name") + " " + Digits(p.minutes) + "m") + ")";
    agents := if p.agents > 0 then " (+" + Digits(p.agents) + " agents)" else "";
    Entered(slot(p.name, 24, "name") + state + claim, " (",
            if p.presence == "live" then "live" else slot(p.presence, 8, "name") + " " + Digits(p.minutes) + "m");
  }

  lemma Entered(before: string, open: string, how: string)
    ensures before + open + how + ")" == before + (open + how + ")")
    ensures " (" + "live" + ")" == " (live)"
  {
  }

  // The details of a claim follow one by one.
  lemma {:induction false} DetailsRead(slot: Slot, details: seq<string>, last: string)
    ensures Details(slot, details + [last]) == Details(slot, details) + (", " + slot(last, 20, "name"))
  {
    if details == [] {
      assert [last][1..] == [] && details + [last] == [last];
    } else {
      assert (details + [last])[1..] == details[1..] + [last];
      DetailsRead(slot, details[1..], last);
    }
  }

  // A claim's entry is its subject and whose it is; a digest item says what, who and the text.
  lemma ClaimAndItemRead(slot: Slot, c: Claim, plan: Plan, item: Item, textCap: nat)
    ensures ClaimEntry(slot, c, plan) ==
      slot(c.subject, plan.subjectCap, "subject") + (" \U{2014} " + if c.own then "you" else slot(c.owner, 24, "name")) +
      if plan.dropDetails then "" else Details(slot, c.details)
    ensures DigestItem(slot, item, textCap) ==
      "[" + (slot(item.kind, 16, "name") + (" \U{B7} " + (slot(item.member, 24, "member_name") +
      ("] " + slot(item.text, textCap, "text")))))
  {
    assert Details(slot, []) == "";
  }

  // The block opens with the workspace, by name when it has one, and the tier.
  lemma TagReads(slot: Slot, v: View)
    ensures slot(v.ws, 24, "name") == "" ==>
      OpenTag(slot, v) == "<handshake ws:workspace tier:" + (if v.relay then "relay>" else "zero-setup>")
    ensures slot(v.ws, 24, "name") != "" ==>
      OpenTag(slot, v) == "<handshake ws:" + (slot(v.ws, 24, "name") + (" tier:" + if v.relay then "relay>" else "zero-setup>"))
  {
    assert "relay" + ">" == "relay>" && "zero-setup" + ">" == "zero-setup>";
    assert "<handshake ws:" + "workspace" == "<handshake ws:workspace";
  }

  lemma UpperParts(slot: Slot, v: View, plan: Plan) returns (head: seq<string>)
    ensures |head| == 3
    ensures Upper(slot, v, plan) ==
      head + (if plan.dropNotices then [] else NoticeLines(slot, First(v.notices, 2))) + DigestLines(slot, v, plan)
  {
    head := [OpenTag(slot, v), "peers: " + RosterText(slot, v, plan), "claims: " + ClaimsText(slot, v, plan)];
  }

  // Between the three lines above and the digest stand the first two notices, each behind a mark, unless the plan drops
  // them.
  lemma NoticesRead(slot: Slot, v: View, plan: Plan) returns (head: seq<string>, notices: seq<string>)
    ensures |head| == 3 && Upper(slot, v, plan) == head + notices + DigestLines(slot, v, plan)
    ensures |notices| == if plan.dropNotices then 0 else Min(2, |v.notices|)
    ensures forall i :: 0 <= i < |notices| ==> notices[i] == "! " + slot(v.notices[i], 96, "note")
  {
    head := UpperParts(slot, v, plan);
    notices := if plan.dropNotices then [] else NoticeLines(slot, First(v.notices, 2));
    NoticeAt(slot, First(v.notices, 2));
  }

  lemma {:induction false} NoticeAt(slot: Slot, notices: seq<string>)
    ensures |NoticeLines(slot, notices)| == |notices|
    ensures forall i :: 0 <= i < |notices| ==> NoticeLines(slot, notices)[i] == "! " + slot(notices[i], 96, "note")
  {
    if notices != [] { NoticeAt(slot, notices[1..]); }
  }

  // The items trimmed last are the priority ones: at least one when anything waits, and five at most.
  lemma FloorCounts(v: View)
    ensures var urgent := |Filter(v.items, (i: Item) => i.priority)|;
      Floor(v) == if v.items == [] then 0 else if urgent == 0 then 1 else if urgent > 5 then 5 else urgent
  {
    PriorityIsFilter(v.items);
  }

  lemma {:induction false} PriorityIsFilter(items: seq<Item>)
    ensures CountPriority(items) == |Filter(items, (i: Item) => i.priority)|
  {
    if items != [] { PriorityIsFilter(items[1..]); }
  }
}
