/**
 * The response pools the bot posts from, the weekly regeneration that may
 * replace them (`SidekickLogic.renew_responses_with_ai`), and the scheduled
 * post drawn from one of them (`SidekickLogic.send_scheduled_message`).
 */
module Responses {
  import opened Wrappers
  import opened Text
  import opened Extraction
  import Scheduler

  /** Category name to its list of response lines (`self.responses`, without
      the banter table, which is never regenerated). */
  type Pools = map<string, seq<string>>

  const GreetKey := "GREET_NEW_MEMBERS_HYPE"
  const IdentityKey := "BOT_IDENTITY_SIDEKICK"

  /** A regenerated category: the instruction sent to the text generator and
      the least number of usable lines that make a replacement acceptable. */
  datatype Category = Category(key: string, prompt: string, minCount: nat)

  /** The instructions sent to the text generator, one per category. */
  const QuotesPrompt := "Create 28 funny, short, and relevant quotes about meme coin culture and crypto. In English."
  const BuyPrompt := "Create 80 short, highly persuasive, and energetic messages to encourage the community to buy a meme coin named $NPEPE. Use crypto slang. In English."
  const PumpPrompt := "Create 100 very short and high-energy hype messages to pump up a crypto group. Use lots of rocket and fire emojis. Very enthusiastic. In English."
  const GreetPrompt := "Create 25 very HYPE welcome messages for new members in a crypto group. Must include the placeholder '{name}'. Make them feel like a superstar. In English."
  const IdentityPrompt := "Create 20 unique answers to the question 'who are you' for a sidekick bot. Position yourself as the 'aide' or 'hype man' of the main bot. Funny, energetic, and loyal. In English."

  /** The five regenerated categories, in declaration order. */
  const Categories: seq<Category> := [
    Category(Scheduler.Quotes, QuotesPrompt, 20),
    Category(Scheduler.Buy, BuyPrompt, 50),
    Category(Scheduler.Pump, PumpPrompt, 70),
    Category(GreetKey, GreetPrompt, 20),
    Category(IdentityKey, IdentityPrompt, 15)
  ]

  /** What the text generator returned for one category: its text, or a
      failure (any exception raised while asking for or reading the completion). */
  datatype Generation = Generated(text: string) | ServiceError

  /** The outcome recorded for one category. */
  datatype Status = Succeeded(count: nat) | TooFew(count: nat, minCount: nat) | Errored

  datatype Report = Report(key: string, status: Status)

  predicate HasPlaceholder(line: string) {
    Contains(line, "{name}")
  }

  /** The usable lines of a generated text for category `c`: the extracted
      lines, and for greetings only those holding the `{name}` placeholder. */
  function Candidates(c: Category, text: string): (r: seq<string>) {
    var lines := ExtractLines(text);
    if c.key == GreetKey then Comprehension(lines, HasPlaceholder, (l: string) => l) else lines
  }

  /** The status recorded for category `c` given what the generator returned. */
  function Judge(c: Category, g: Generation): (r: Status) {
    match g
    case ServiceError => Errored
    case Generated(text) =>
      var n := |Candidates(c, text)|;
      if n >= c.minCount then Succeeded(n) else TooFew(n, c.minCount)
  }

  /** The pools after processing category `c`: replaced only on success. */
  function Apply(pools: Pools, c: Category, g: Generation): (r: Pools) {
    if Judge(c, g).Succeeded? then pools[c.key := Candidates(c, g.text)] else pools
  }

  /** The pools after processing the categories `cs` in order. */
  function RenewAll(pools: Pools, cs: seq<Category>, gs: seq<Generation>): (r: Pools)
    requires |cs| == |gs|
  {
    if cs == [] then pools
    else Apply(RenewAll(pools, cs[..|cs| - 1], gs[..|gs| - 1]), cs[|cs| - 1], gs[|gs| - 1])
  }

  predicate UniqueKeys(cs: seq<Category>) {
    forall i, j :: 0 <= i < j < |cs| ==> cs[i].key != cs[j].key
  }

  function Keys(cs: seq<Category>): (r: set<string>) {
    set c | c in cs :: c.key
  }

  /** A category succeeds exactly when it was generated and at least its
      threshold of lines survived the filters; the count recorded is the
      number of surviving lines. */
  lemma JudgeThreshold(c: Category, g: Generation)
    ensures Judge(c, g).Succeeded? <==> g.Generated? && |Candidates(c, g.text)| >= c.minCount
    ensures Judge(c, g).Succeeded? ==> Judge(c, g).count == |Candidates(c, g.text)|
    ensures Judge(c, g).TooFew? <==> g.Generated? && |Candidates(c, g.text)| < c.minCount
    ensures Judge(c, g).Errored? <==> g.ServiceError?
  {
  }

  /** One step changes at most the entry of its own category. */
  lemma ApplyLookup(pools: Pools, c: Category, g: Generation, k: string)
    ensures Lookup(Apply(pools, c, g), k) ==
      if k == c.key && Judge(c, g).Succeeded? then Some(Candidates(c, g.text)) else Lookup(pools, k)
  {
  }

  /** A key no category names is untouched by the regeneration. */
  lemma {:induction false} RenewAllOtherKeys(pools: Pools, cs: seq<Category>, gs: seq<Generation>, k: string)
    requires |cs| == |gs| && k !in Keys(cs)
    ensures Lookup(RenewAll(pools, cs, gs), k) == Lookup(pools, k)
  {
    if cs != [] {
      var n := |cs| - 1;
      var init, ginit := cs[..n], gs[..n];
      assert Keys(init) <= Keys(cs) by {
        forall c | c in init ensures c in cs {
          var i :| 0 <= i < |init| && init[i] == c;
          assert cs[i] == c;
        }
      }
      RenewAllOtherKeys(pools, init, ginit, k);
      assert cs[n] in cs;
      ApplyLookup(RenewAll(pools, init, ginit), cs[n], gs[n], k);
    }
  }

  /** Threshold gating: the pool of the `i`-th category ends up holding its
      surviving lines when it succeeded, and otherwise keeps what it held
      (absent stays absent). */
  /** One step, with the threshold spelled out. */
  lemma ApplyGate(pools: Pools, c: Category, g: Generation, k: string)
    ensures Lookup(Apply(pools, c, g), k) ==
      if k == c.key && g.Generated? && |Candidates(c, g.text)| >= c.minCount then Some(Candidates(c, g.text))
      else Lookup(pools, k)
  {
    JudgeThreshold(c, g);
    ApplyLookup(pools, c, g, k);
  }

  /** With unique keys, the last category's key is none of the earlier ones'. */
  lemma LastKeyFresh(cs: seq<Category>)
    requires UniqueKeys(cs) && cs != []
    ensures cs[|cs| - 1].key !in Keys(cs[..|cs| - 1])
  {
    var n := |cs| - 1;
    forall c | c in cs[..n] ensures c.key != cs[n].key {
      var j :| 0 <= j < n && cs[..n][j] == c;
      assert cs[j] == c;
    }
  }

  lemma {:induction false} RenewAllCategory(pools: Pools, cs: seq<Category>, gs: seq<Generation>, i: int)
    requires |cs| == |gs| && UniqueKeys(cs) && 0 <= i < |cs|
    ensures Lookup(RenewAll(pools, cs, gs), cs[i].key) ==
      if gs[i].Generated? && |Candidates(cs[i], gs[i].text)| >= cs[i].minCount then Some(Candidates(cs[i], gs[i].text))
      else Lookup(pools, cs[i].key)
  {
    var n := |cs| - 1;
    var init, ginit := cs[..n], gs[..n];
    ApplyGate(RenewAll(pools, init, ginit), cs[n], gs[n], cs[i].key);
    if i == n {
      LastKeyFresh(cs);
      RenewAllOtherKeys(pools, init, ginit, cs[i].key);
    } else {
      assert init[i] == cs[i] && ginit[i] == gs[i];
      assert UniqueKeys(init);
      RenewAllCategory(pools, init, ginit, i);
    }
  }

  /** What installed lines look like: each is the cleaned form of a split piece
      that is not blank and longer than five characters, and greeting lines
      hold the `{name}` placeholder. */
  lemma CandidateShape(c: Category, text: string, k: nat)
    requires k < |Candidates(c, text)|
    ensures var line := Candidates(c, text)[k];
      && (exists j :: 0 <= j < |Split(text)| && Kept(Split(text)[j]) && line == Clean(Split(text)[j]))
      && (line == [] || (!IsSpace(line[0]) && !IsSpace(line[|line| - 1])))
      && (c.key == GreetKey ==> HasPlaceholder(line))
  {
    var lines := ExtractLines(text);
    if c.key == GreetKey {
      var j := ComprehensionSource(lines, HasPlaceholder, (l: string) => l, k);
      ExtractedLineShape(text, j);
    } else {
      ExtractedLineShape(text, k);
    }
  }

  /** Every kept greeting line that holds the placeholder is installed on success. */
  lemma GreetingCandidatesComplete(c: Category, text: string, j: nat)
    requires c.key == GreetKey && j < |ExtractLines(text)| && HasPlaceholder(ExtractLines(text)[j])
    ensures ExtractLines(text)[j] in Candidates(c, text)
  {
    ComprehensionComplete(ExtractLines(text), HasPlaceholder, (l: string) => l, j);
  }

  /** The pools every consumer relies on: each regenerated category has a
      non-empty list, and every greeting template holds the placeholder. */
  predicate ValidPools(pools: Pools) {
    && (forall c | c in Categories :: c.key in pools && pools[c.key] != [])
    && (GreetKey in pools ==> forall line | line in pools[GreetKey] :: HasPlaceholder(line))
  }

  lemma CategoriesFacts()
    ensures |Categories| == 5 && UniqueKeys(Categories)
    ensures forall c | c in Categories :: c.minCount > 0
    ensures Categories[3].key == GreetKey
  {
  }

  /** Regeneration keeps the pools valid: thresholds are positive, so a
      replacement is never empty, and greeting replacements are filtered on the
      placeholder. */
  lemma RenewPreservesValid(pools: Pools, gs: seq<Generation>)
    requires |gs| == |Categories| && ValidPools(pools)
    ensures ValidPools(RenewAll(pools, Categories, gs))
  {
    var after := RenewAll(pools, Categories, gs);
    CategoriesFacts();
    forall c | c in Categories ensures c.key in after && after[c.key] != [] {
      var i :| 0 <= i < |Categories| && Categories[i] == c;
      RenewAllCategory(pools, Categories, gs, i);
    }
    assert Categories[3] in Categories;
    RenewAllCategory(pools, Categories, gs, 3);
    if gs[3].Generated? && |Candidates(Categories[3], gs[3].text)| >= Categories[3].minCount {
      var lines := Candidates(Categories[3], gs[3].text);
      forall line | line in lines ensures HasPlaceholder(line) {
        var k :| 0 <= k < |lines| && lines[k] == line;
        var j := ComprehensionSource(ExtractLines(gs[3].text), HasPlaceholder, (l: string) => l, k);
      }
    }
  }

  /** The quotes threshold is 20, counted with duplicates: with 18 usable
      lines the category is reported as 18 of 20 and keeps its pool; with 22 it
      is reported as a success of 22 and its pool becomes those lines. These
      reports are the first entry of the regeneration's tracker. */
  lemma QuotesThresholdExamples(pools: Pools, gs: seq<Generation>)
    requires |gs| == |Categories| && gs[0].Generated?
    ensures |Candidates(Categories[0], gs[0].text)| == 18 ==>
      && Report(Categories[0].key, Judge(Categories[0], gs[0])) == Report(Scheduler.Quotes, TooFew(18, 20))
      && Lookup(RenewAll(pools, Categories, gs), Scheduler.Quotes) == Lookup(pools, Scheduler.Quotes)
    ensures |Candidates(Categories[0], gs[0].text)| == 22 ==>
      && Report(Categories[0].key, Judge(Categories[0], gs[0])) == Report(Scheduler.Quotes, Succeeded(22))
      && Lookup(RenewAll(pools, Categories, gs), Scheduler.Quotes) == Some(Candidates(Categories[0], gs[0].text))
  {
    CategoriesFacts();
    RenewAllCategory(pools, Categories, gs, 0);
  }

  /** Every category a scheduled task posts from is a regenerated one. */
  lemma ScheduledCategoriesAreRegenerated()
    ensures forall e | e in Scheduler.Schedules && e.action.SendFromPool? ::
      e.action.category in Keys(Categories)
  {
    Scheduler.PostingCategories();
    assert Categories[0] in Categories && Categories[1] in Categories && Categories[2] in Categories;
    assert {Scheduler.Quotes, Scheduler.Buy, Scheduler.Pump} <= Keys(Categories);
  }

  /** The scheduled post for `key` (`send_scheduled_message`): nothing when the
      group is not configured or the pool is missing or empty, otherwise the
      line at the arbitrary choice `pick`. */
  function ScheduledMessage(pools: Pools, key: string, groupId: string, pick: nat): (r: Option<string>)
    ensures r.Some? <==> groupId != "" && key in pools && pools[key] != []
    ensures r.Some? ==> r.value in pools[key]
  {
    var pool := if key in pools then pools[key] else [];
    if groupId == "" || pool == [] then None else Some(pool[pick % |pool|])
  }

  /** With valid pools and a configured group, every scheduled posting task posts. */
  lemma ScheduledTasksPost(pools: Pools, groupId: string, pick: nat, i: int)
    requires ValidPools(pools) && groupId != ""
    requires 0 <= i < |Scheduler.Schedules| && Scheduler.Schedules[i].action.SendFromPool?
    ensures ScheduledMessage(pools, Scheduler.Schedules[i].action.category, groupId, pick).Some?
  {
    ScheduledCategoriesAreRegenerated();
    var e := Scheduler.Schedules[i];
    assert e in Scheduler.Schedules;
    var c :| c in Categories && c.key == e.action.category;
  }

  /** A few of the canned lines of each category. */
  const InitialIdentity: seq<string> := [
    "Me? I'm the Commander's aide! My main mission is to make sure the hype here never dies. LFG!",
    "I'm the official second-in-command. I take my orders from the Commander and execute them with maximum hype!"]
  const InitialGreetings: seq<string> := [
    "Hold on, everyone... is that " + "{name}" + "?! The prophecy is true! Welcome to the NPEPEVERSE!",
    "This is not a drill! " + "{name}" + " is in the house! Let's give them a hero's welcome!"]
  const InitialQuotes: seq<string> := [
    "The most important crypto metric is Vibes Per Second (VPS). And ours is off the charts.",
    "Buy the rumor, sell the news? Nah. Buy the meme, HODL the dream."]
  const InitialBuy: seq<string> := [
    "The floor is looking awfully bouncy right now. Just saying.",
    "That buy button is looking extra clickable today, isn't it?"]
  const InitialPump: seq<string> := [
    "SEND IT TO THE STRATOSPHERE!",
    "RELEASE THE KRAKEN! PUMP IT NOW!"]

  /** The pools the bot starts with. */
  const InitialPools: Pools := map[
    IdentityKey := InitialIdentity,
    GreetKey := InitialGreetings,
    Scheduler.Quotes := InitialQuotes,
    Scheduler.Buy := InitialBuy,
    Scheduler.Pump := InitialPump
  ]

  lemma InitialPoolsValid()
    ensures ValidPools(InitialPools)
  {
    assert |GreetKey| == 22 && |IdentityKey| == 21;
    assert |Scheduler.Quotes| == 16 && |Scheduler.Buy| == 13 && |Scheduler.Pump| == 14;
    ContainsMiddle("Hold on, everyone... is that ", "{name}", "?! The prophecy is true! Welcome to the NPEPEVERSE!");
    ContainsMiddle("This is not a drill! ", "{name}", " is in the house! Let's give them a hero's welcome!");
  }

  /** `self.responses`, the part of it that is regenerated. */
  class ResponseStore {
    var pools: Pools

    ghost predicate Valid()
      reads this
    {
      ValidPools(pools)
    }

    constructor ()
      ensures pools == InitialPools && Valid()
    {
      pools := InitialPools;
      InitialPoolsValid();
    }

    /** One category of the regeneration: the lines of the generated text (for
        greetings only those with the placeholder) replace the pool when there
        are at least the threshold of them. */
    method RenewCategory(c: Category, g: Generation) returns (status: Status)
      modifies this
      ensures pools == Apply(old(pools), c, g) && status == Judge(c, g)
    {
      match g
      case ServiceError =>
        status := Errored;
      case Generated(text) =>
        var lines := ExtractLines(text);
        if c.key == GreetKey {
          lines := Comprehension(lines, HasPlaceholder, (l: string) => l);
        }
        if |lines| >= c.minCount {
          pools := pools[c.key := lines];
          status := Succeeded(|lines|);
        } else {
          status := TooFew(|lines|, c.minCount);
        }
    }

    /** The loop of the regeneration over the categories `cs`: each category
        in order is judged on what the generator returned for it, its pool is
        replaced only on success, and one report per category is returned in
        order. */
    method RenewEach(cs: seq<Category>, generations: seq<Generation>) returns (tracker: seq<Report>)
      requires |generations| == |cs|
      modifies this
      ensures pools == RenewAll(old(pools), cs, generations)
      ensures |tracker| == |cs|
      ensures forall k :: 0 <= k < |tracker| ==> tracker[k] == Report(cs[k].key, Judge(cs[k], generations[k]))
    {
      tracker := [];
      var i := 0;
      while i < |cs|
        invariant 0 <= i <= |cs|
        invariant pools == RenewAll(old(pools), cs[..i], generations[..i])
        invariant |tracker| == i
        invariant forall k :: 0 <= k < i ==> tracker[k] == Report(cs[k].key, Judge(cs[k], generations[k]))
      {
        var c := cs[i];
        var status := RenewCategory(c, generations[i]);
        tracker := tracker + [Report(c.key, status)];
        assert cs[..i + 1][..i] == cs[..i];
        assert generations[..i + 1][..i] == generations[..i];
        i := i + 1;
      }
      assert cs[..i] == cs && generations[..i] == generations;
    }

    /** The regeneration (`renew_responses_with_ai`): when no generator is
        configured nothing happens and nothing is reported; otherwise all five
        categories are processed in order. */
    method Renew(generatorReady: bool, generations: seq<Generation>) returns (tracker: seq<Report>)
      requires |generations| == |Categories| && Valid()
      modifies this
      ensures Valid()
      ensures !generatorReady ==> tracker == [] && pools == old(pools)
      ensures generatorReady ==> pools == RenewAll(old(pools), Categories, generations)
      ensures generatorReady ==> |tracker| == |Categories|
      ensures generatorReady ==> forall k :: 0 <= k < |tracker| ==>
        tracker[k] == Report(Categories[k].key, Judge(Categories[k], generations[k]))
    {
      if !generatorReady {
        return [];
      }
      RenewPreservesValid(pools, generations);
      tracker := RenewEach(Categories, generations);
    }
  }

}
