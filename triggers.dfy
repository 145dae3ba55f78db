/**
 * The bot's reactions to chat traffic, with the threads and sleeps reduced to
 * a delay attached to the reply: banter with the main bot and answers to
 * identity questions (`SidekickLogic.handle_all_messages`), and the welcome
 * posted for new members (`SidekickLogic.greet_new_members_sidekick`).
 */
module Triggers {
  import opened Wrappers
  import opened Text
  import Responses

  /** Announcements of the main bot that the sidekick leaves alone. */
  const WelcomePhrases: seq<string> := ["Welcome to the NPEPEVERSE", "A wild", "new fren has appeared"]

  /** Phrases that make a message an identity question. */
  const IdentityKeywords: seq<string> := ["what are you", "what is this bot", "are you a bot", "who are you"]

  /** A phrase of the main bot and the sidekick's reply to it. */
  datatype Banter = Banter(trigger: string, reply: string)

  /** The banter table (`BANTER_REACTIONS`), in declaration order. */
  const BanterReactions: seq<Banter> := [
    Banter("Rise and ribbit", "THE COMMANDER HAS SPOKEN! LFG, GANG, LET'S GET THIS BREAD! \U{2600}\U{FE0F}"),
    Banter("GM legends!", "YOU HEARD THE BOSS! COFFEE IN ONE HAND, BUY BUTTON IN THE OTHER! LET'S GO! \U{2615}"),
    Banter("Midday check-in", "REFUEL, RECHARGE, AND PREPARE FOR THE AFTERNOON PUMP! WE'RE JUST GETTING STARTED! \U{26FD}\U{FE0F}"),
    Banter("The charts never sleep", "BUT LEGENDS REST! SLEEP WELL, ARMY. I'LL KEEP THE HYPE WARM FOR YOU. \U{1FAE1}"),
    Banter("Daily Dose of NPEPE Wisdom", "LISTEN UP, Frens! The Oracle has spoken. Absorb the wisdom, then let's get back to shilling! \U{1F4DC}")
  ]

  /** Seconds waited before replying to the main bot and to an identity question. */
  const BanterDelay := 30
  const IdentityDelay := 5

  /** The answers used when the store has no identity category. */
  const DefaultIdentity: seq<string> := ["I'm the Hype Man!"]

  /** A chat message: the sender's numeric id and its text (`""` when the
      message has no text). */
  datatype Message = Message(senderId: int, text: string)

  /** What the bot does about a message: nothing, or one reply sent after a delay. */
  datatype Reaction = Silent | BanterReply(delay: nat, reply: string) | IdentityAnswer(delay: nat, reply: string)

  /** The message comes from the main bot: its id is configured (`""` when not)
      and equals the sender's id written in decimal. */
  predicate FromMainBot(msg: Message, mainBotId: string) {
    mainBotId != "" && IntToString(msg.senderId) == mainBotId
  }

  predicate AnyTrigger(table: seq<Banter>, text: string) {
    exists i | 0 <= i < |table| :: Contains(text, table[i].trigger)
  }

  /** The `i`-th trigger is the first one occurring in `text`. */
  predicate FirstMatchAt(table: seq<Banter>, text: string, i: int) {
    && 0 <= i < |table|
    && Contains(text, table[i].trigger)
    && forall j :: 0 <= j < i ==> !Contains(text, table[j].trigger)
  }

  /** `any(kw in lower_text for kw in identity_keywords)` with
      `lower_text = text.lower().strip()`. */
  predicate IdentityAsked(text: string) {
    ContainsAny(Strip(Lower(text)), IdentityKeywords)
  }

  /** The answers to pick from (`responses.get("BOT_IDENTITY_SIDEKICK", ["I'm the Hype Man!"])`). */
  function IdentityPool(pools: Responses.Pools): (r: seq<string>)
    ensures Responses.IdentityKey !in pools ==> r == DefaultIdentity
    ensures Responses.IdentityKey in pools ==> r == pools[Responses.IdentityKey]
  {
    if Responses.IdentityKey in pools then pools[Responses.IdentityKey] else DefaultIdentity
  }

  /** With valid pools the identity category is present and non-empty, so
      the default answer is never used and an answer can always be picked. */
  lemma IdentityPoolOfValid(pools: Responses.Pools)
    requires Responses.ValidPools(pools)
    ensures IdentityPool(pools) == pools[Responses.IdentityKey] && IdentityPool(pools) != []
  {
    assert Responses.Categories[4] in Responses.Categories;
  }

  /** The banter loop: the reply of the first trigger, in table order, that
      occurs in the text, and nothing when none does. */
  method ScanBanter(table: seq<Banter>, text: string) returns (reply: Option<string>)
    ensures reply.None? <==> !AnyTrigger(table, text)
    ensures reply.Some? ==> exists i :: FirstMatchAt(table, text, i) && reply.value == table[i].reply
  {
    reply := None;
    var i := 0;
    while i < |table|
      invariant 0 <= i <= |table|
      invariant reply.None?
      invariant forall j :: 0 <= j < i ==> !Contains(text, table[j].trigger)
    {
      if Contains(text, table[i].trigger) {
        reply := Some(table[i].reply);
        assert FirstMatchAt(table, text, i);
        break;
      }
      i := i + 1;
    }
  }

  /** The trigger of a banter reply is unique: two first matches are the same entry. */
  lemma FirstMatchUnique(table: seq<Banter>, text: string, i: int, j: int)
    requires FirstMatchAt(table, text, i) && FirstMatchAt(table, text, j)
    ensures i == j
  {
  }

  /** `handle_all_messages`: a message without text is ignored; a message of
      the main bot gets at most the banter reply (none for its welcome
      announcements) and is never taken for an identity question; any other
      message asking who the bot is gets an answer from the identity pool,
      picked by `pick`, unless that pool is empty. */
  method HandleMessage(pools: Responses.Pools, msg: Message, mainBotId: string, pick: nat)
      returns (reaction: Reaction)
    ensures msg.text == "" ==> reaction == Silent
    ensures FromMainBot(msg, mainBotId) ==> !reaction.IdentityAnswer?
    ensures FromMainBot(msg, mainBotId) && ContainsAny(msg.text, WelcomePhrases) ==> reaction == Silent
    ensures reaction.BanterReply? <==>
      && msg.text != "" && FromMainBot(msg, mainBotId)
      && !ContainsAny(msg.text, WelcomePhrases) && AnyTrigger(BanterReactions, msg.text)
    ensures reaction.BanterReply? ==> reaction.delay == BanterDelay
    ensures reaction.BanterReply? ==>
      exists i :: FirstMatchAt(BanterReactions, msg.text, i) && reaction.reply == BanterReactions[i].reply
    ensures reaction.IdentityAnswer? <==>
      && msg.text != "" && !FromMainBot(msg, mainBotId)
      && IdentityAsked(msg.text) && IdentityPool(pools) != []
    ensures reaction.IdentityAnswer? ==> reaction.delay == IdentityDelay && reaction.reply in IdentityPool(pools)
    ensures Responses.ValidPools(pools) && msg.text != "" && !FromMainBot(msg, mainBotId) && IdentityAsked(msg.text) ==>
      && reaction == IdentityAnswer(IdentityDelay, reaction.reply)
      && Responses.IdentityKey in pools && reaction.reply in pools[Responses.IdentityKey]
  {
    if Responses.ValidPools(pools) {
      IdentityPoolOfValid(pools);
    }
    if msg.text == "" {
      return Silent;
    }
    if FromMainBot(msg, mainBotId) {
      if ContainsAny(msg.text, WelcomePhrases) {
        return Silent;
      }
      var reply := ScanBanter(BanterReactions, msg.text);
      if reply.Some? {
        return BanterReply(BanterDelay, reply.value);
      }
      return Silent;
    }
    if IdentityAsked(msg.text) {
      var answers := IdentityPool(pools);
      if answers == [] {
        return Silent;
      }
      return IdentityAnswer(IdentityDelay, answers[pick % |answers|]);
    }
    return Silent;
  }

  lemma KeywordEnds()
    ensures forall k :: 0 <= k < |IdentityKeywords| ==>
      |IdentityKeywords[k]| > 0 && !IsSpace(IdentityKeywords[k][0]) && !IsSpace(IdentityKeywords[k][|IdentityKeywords[k]| - 1])
  {
    assert IdentityKeywords[0] == "what " + "are you";
    assert IdentityKeywords[1] == "what " + "is this bot";
    assert IdentityKeywords[2] == "are " + "you a bot";
    assert IdentityKeywords[3] == "who " + "are you";
  }

  /** Trimming the text does not matter: a message is an identity question
      exactly when its lower-cased text contains one of the keywords. */
  lemma IdentityIgnoresSurroundingSpace(text: string)
    ensures IdentityAsked(text) <==>
      exists k | 0 <= k < |IdentityKeywords| :: Contains(Lower(text), IdentityKeywords[k])
  {
    KeywordEnds();
    forall k | 0 <= k < |IdentityKeywords|
      ensures Contains(Strip(Lower(text)), IdentityKeywords[k]) <==> Contains(Lower(text), IdentityKeywords[k])
    {
      ContainsStripped(Lower(text), IdentityKeywords[k]);
    }
  }

  /** Identity questions are recognised whatever the case of their letters. */
  lemma IdentityIgnoresCase(text: string)
    ensures IdentityAsked(Lower(text)) == IdentityAsked(text)
  {
    LowerIdempotent(text);
  }

  /** The characters the welcome escapes for Telegram's Markdown. */
  const Special: set<char> := {'_', '*', '[', '`'}

  /** `s.replace(c, r)` for a one-character pattern. */
  function ReplaceChar(s: string, c: char, r: string): (t: string) {
    if s == [] then [] else (if s[0] == c then r else [s[0]]) + ReplaceChar(s[1..], c, r)
  }

  lemma {:induction false} ReplaceCharConcat(a: string, b: string, c: char, r: string)
    ensures ReplaceChar(a + b, c, r) == ReplaceChar(a, c, r) + ReplaceChar(b, c, r)
  {
    if a == [] {
      assert a + b == b;
    } else {
      assert (a + b)[0] == a[0] && (a + b)[1..] == a[1..] + b;
      ReplaceCharConcat(a[1..], b, c, r);
    }
  }

  /** `.replace('_', '\\_').replace('*', '\\*').replace('[', '\\[').replace('`', '\\`')`. */
  function EscapeMarkdown(name: string): (r: string) {
    ReplaceChar(ReplaceChar(ReplaceChar(ReplaceChar(name, '_', "\\_"), '*', "\\*"), '[', "\\["), '`', "\\`")
  }

  function EscapeChar(c: char): (r: string) {
    if c in Special then ['\\', c] else [c]
  }

  /** Escaping character by character: every special character gets a
      backslash in front of it, and the result never starts with a special
      character. */
  function EscapeEach(s: string): (r: string)
    ensures r == [] || r[0] !in Special
    ensures forall i :: 0 <= i < |r| && r[i] in Special ==> i > 0 && r[i - 1] == '\\'
    ensures |r| >= |s|
  {
    if s == [] then []
    else
      var rest := EscapeEach(s[1..]);
      assert forall i :: |EscapeChar(s[0])| <= i < |EscapeChar(s[0]) + rest| ==>
        (EscapeChar(s[0]) + rest)[i] == rest[i - |EscapeChar(s[0])|];
      EscapeChar(s[0]) + rest
  }

  /** Replacing a character the string does not hold changes nothing. */
  lemma {:induction false} ReplaceAbsent(s: string, c: char, r: string)
    requires c !in s
    ensures ReplaceChar(s, c, r) == s
  {
    if s != [] {
      assert c !in s[1..];
      ReplaceAbsent(s[1..], c, r);
      assert [s[0]] + s[1..] == s;
    }
  }

  lemma ReplaceSingle(c: char, x: char, r: string)
    ensures ReplaceChar([c], x, r) == if c == x then r else [c]
  {
    assert [c][1..] == [];
  }

  lemma EscapeCharChain(c: char)
    ensures ReplaceChar(ReplaceChar(ReplaceChar(ReplaceChar([c], '_', "\\_"), '*', "\\*"), '[', "\\["), '`', "\\`")
      == EscapeChar(c)
  {
    ReplaceSingle(c, '_', "\\_");
    var s1 := ReplaceChar([c], '_', "\\_");
    if c == '_' {
      ReplaceAbsent(s1, '*', "\\*");
      ReplaceAbsent(s1, '[', "\\[");
      ReplaceAbsent(s1, '`', "\\`");
    } else {
      ReplaceSingle(c, '*', "\\*");
      var s2 := ReplaceChar(s1, '*', "\\*");
      if c == '*' {
        ReplaceAbsent(s2, '[', "\\[");
        ReplaceAbsent(s2, '`', "\\`");
      } else {
        ReplaceSingle(c, '[', "\\[");
        var s3 := ReplaceChar(s2, '[', "\\[");
        if c == '[' {
          ReplaceAbsent(s3, '`', "\\`");
        } else {
          ReplaceSingle(c, '`', "\\`");
        }
      }
    }
  }

  /** The chained replacements escape character by character: the backslash
      one replacement inserts is never touched by a later one. */
  lemma {:induction false} EscapeIsCharwise(s: string)
    ensures EscapeMarkdown(s) == EscapeEach(s)
  {
    if s != [] {
      var c, t := s[0], s[1..];
      assert s == [c] + t;
      ReplaceCharConcat([c], t, '_', "\\_");
      var a1, b1 := ReplaceChar([c], '_', "\\_"), ReplaceChar(t, '_', "\\_");
      ReplaceCharConcat(a1, b1, '*', "\\*");
      var a2, b2 := ReplaceChar(a1, '*', "\\*"), ReplaceChar(b1, '*', "\\*");
      ReplaceCharConcat(a2, b2, '[', "\\[");
      var a3, b3 := ReplaceChar(a2, '[', "\\["), ReplaceChar(b2, '[', "\\[");
      ReplaceCharConcat(a3, b3, '`', "\\`");
      EscapeCharChain(c);
      EscapeIsCharwise(t);
    }
  }

  /** Reads an escaped name back: a backslash before a special character is dropped. */
  function Unescape(s: string): (r: string)
    decreases |s|
  {
    if s == [] then []
    else if |s| >= 2 && s[0] == '\\' && s[1] in Special then [s[1]] + Unescape(s[2..])
    else [s[0]] + Unescape(s[1..])
  }

  lemma {:induction false} UnescapeEach(s: string)
    ensures Unescape(EscapeEach(s)) == s
  {
    if s != [] {
      var c, rest := s[0], EscapeEach(s[1..]);
      var e := EscapeChar(c) + rest;
      UnescapeEach(s[1..]);
      if c in Special {
        assert e[0] == '\\' && e[1] == c && e[2..] == rest;
      } else {
        assert e[0] == c && e[1..] == rest;
        assert |e| >= 2 ==> e[1] == rest[0];
      }
    }
  }

  /** Escaping loses nothing: the name can be read back from its escaped form. */
  lemma EscapeRoundTrip(name: string)
    ensures Unescape(EscapeMarkdown(name)) == name
  {
    EscapeIsCharwise(name);
    UnescapeEach(name);
  }

  /** In an escaped name every special character carries a backslash. */
  lemma EscapedSpecialsArePreceded(name: string)
    ensures var e := EscapeMarkdown(name);
      forall i :: 0 <= i < |e| && e[i] in Special ==> i > 0 && e[i - 1] == '\\'
  {
    EscapeIsCharwise(name);
  }

  /** A new member: Telegram user id and first name (`""` when it has none). */
  datatype Member = Member(id: int, firstName: string)

  /** `[first_name](tg://user?id=…)`, the first name defaulting to `fren` and escaped. */
  function MentionLink(m: Member): (r: string) {
    var name := if m.firstName == "" then "fren" else m.firstName;
    "[" + EscapeMarkdown(name) + "](tg://user?id=" + IntToString(m.id) + ")"
  }

  function PrependTo(p: string, r: Option<string>): (q: Option<string>)
    ensures q.Some? <==> r.Some?
    ensures q.Some? ==> q.value == p + r.value
  {
    if r.Some? then Some(p + r.value) else None
  }

  /** `template.format(name=value)`: `{{` and `}}` stand for single braces,
      `{name}` for the value, and any other use of a brace raises (`None`). */
  function FormatName(template: string, value: string): (r: Option<string>)
    decreases |template|
  {
    if template == [] then Some([])
    else if template[0] == '{' then
      if |template| >= 2 && template[1] == '{' then PrependTo("{", FormatName(template[2..], value))
      else if |template| >= 6 && template[..6] == "{name}" then PrependTo(value, FormatName(template[6..], value))
      else None
    else if template[0] == '}' then
      if |template| >= 2 && template[1] == '}' then PrependTo("}", FormatName(template[2..], value))
      else None
    else PrependTo([template[0]], FormatName(template[1..], value))
  }

  predicate NoBraces(s: string) {
    '{' !in s && '}' !in s
  }

  /** Text without braces formats to itself, whatever follows it. */
  lemma {:induction false} FormatPlainPrefix(a: string, rest: string, value: string)
    requires NoBraces(a)
    ensures FormatName(a + rest, value) == PrependTo(a, FormatName(rest, value))
  {
    if a == [] {
      assert a + rest == rest;
      var r := FormatName(rest, value);
      if r.Some? {
        assert a + r.value == r.value;
      }
    } else {
      assert (a + rest)[0] == a[0] && (a + rest)[1..] == a[1..] + rest;
      assert NoBraces(a[1..]);
      FormatPlainPrefix(a[1..], rest, value);
      var r := FormatName(rest, value);
      if r.Some? {
        assert [a[0]] + (a[1..] + r.value) == a + r.value;
      }
    }
  }

  /** A template holding one `{name}` between brace-free text formats to that
      text around the value, the value being inserted as it is. */
  lemma FormatPlaceholder(a: string, b: string, value: string)
    requires NoBraces(a) && NoBraces(b)
    ensures FormatName(a + "{name}" + b, value) == Some(a + value + b)
  {
    var t := "{name}" + b;
    assert a + "{name}" + b == a + t;
    FormatPlainPrefix(a, t, value);
    assert t[0] == '{' && t[1] == 'n' && t[..6] == "{name}" && t[6..] == b;
    FormatPlainPrefix(b, [], value);
    assert b + [] == b;
    assert FormatName(t, value) == Some(value + b);
    assert a + (value + b) == a + value + b;
  }

  /** A stray brace or an unknown field is an error. */
  lemma FormatRejectsOtherFields(value: string)
    ensures FormatName("{}", value).None?
    ensures FormatName("{0}", value).None?
    ensures FormatName("}", value).None?
  {
  }

  /** The greeting templates (`responses.get("GREET_NEW_MEMBERS_HYPE", [])`). */
  function GreetingPool(pools: Responses.Pools): (r: seq<string>) {
    if Responses.GreetKey in pools then pools[Responses.GreetKey] else []
  }

  /** A greeting template of the expected shape: one `{name}` placeholder
      between brace-free text. */
  ghost predicate PlaceholderTemplate(t: string) {
    exists a, b :: NoBraces(a) && NoBraces(b) && t == a + "{name}" + b
  }

  /** A template of the expected shape formats, and the result holds the value. */
  lemma TemplateFormats(t: string, value: string)
    ensures PlaceholderTemplate(t) ==> FormatName(t, value).Some? && Contains(FormatName(t, value).value, value)
  {
    if PlaceholderTemplate(t) {
      var a, b :| NoBraces(a) && NoBraces(b) && t == a + "{name}" + b;
      FormatPlaceholder(a, b, value);
      ContainsMiddle(a, value, b);
    }
  }

  /** The welcome for one member: the template at `pick`, formatted with the
      mention link; `None` when the pool is empty or the template does not
      format. From a non-empty pool of well-shaped templates, whichever is
      picked, the welcome is built and mentions the member. */
  function Welcome(pool: seq<string>, m: Member, pick: nat): (r: Option<string>)
    ensures pool == [] ==> r.None?
    ensures pool != [] && (forall t | t in pool :: PlaceholderTemplate(t)) ==>
      r.Some? && Contains(r.value, MentionLink(m))
  {
    if pool == [] then None
    else
      var t := pool[pick % |pool|];
      TemplateFormats(t, MentionLink(m));
      FormatName(t, MentionLink(m))
  }

  /** Whichever template the pick lands on, when it is text, `{name}`, text
      with brace-free text, the welcome is that template with the placeholder
      replaced by the member's mention link. */
  lemma WelcomePicked(pool: seq<string>, a: string, b: string, m: Member, pick: nat)
    requires pool != [] && NoBraces(a) && NoBraces(b) && pool[pick % |pool|] == a + "{name}" + b
    ensures Welcome(pool, m, pick) == Some(a + MentionLink(m) + b)
  {
    FormatPlaceholder(a, b, MentionLink(m));
  }

  /** The pool invariant asks greeting lines only to hold `{name}`, not to
      format: a line such as `{name}{x}` passes the regeneration filter, yet
      formatting it fails, so no welcome is built from it. */
  lemma FlawedGreetingFails(m: Member, pick: nat)
    ensures Responses.HasPlaceholder("{name}{x}")
    ensures FormatName("{name}{x}", MentionLink(m)).None?
    ensures Welcome(["{name}{x}"], m, pick).None?
  {
    var t := "{name}{x}";
    assert t[..6] == "{name}" && t[6..] == "{x}";
    assert OccursAt(t, "{name}", 0);
  }

  /** `greet_new_members_sidekick`: one welcome per new member, in order; the
      first member whose welcome cannot be built (empty pool, a template that
      does not format) ends the loop, and the members after it get nothing.
      A failed send is caught per member and does not stop the loop, so the
      welcomes returned are the messages attempted. */
  method GreetNewMembers(pools: Responses.Pools, members: seq<Member>, picks: seq<nat>)
      returns (welcomes: seq<string>)
    requires |picks| == |members|
    ensures |welcomes| <= |members|
    ensures forall i :: 0 <= i < |welcomes| ==>
      Welcome(GreetingPool(pools), members[i], picks[i]) == Some(welcomes[i])
    ensures |welcomes| < |members| ==> Welcome(GreetingPool(pools), members[|welcomes|], picks[|welcomes|]).None?
    ensures GreetingPool(pools) != [] && (forall t | t in GreetingPool(pools) :: PlaceholderTemplate(t)) ==>
      |welcomes| == |members| && forall i :: 0 <= i < |welcomes| ==> Contains(welcomes[i], MentionLink(members[i]))
  {
    var pool := GreetingPool(pools);
    welcomes := [];
    var i := 0;
    while i < |members|
      invariant 0 <= i <= |members| && |welcomes| == i
      invariant forall k :: 0 <= k < i ==> Welcome(pool, members[k], picks[k]) == Some(welcomes[k])
    {
      if pool == [] {
        return;
      }
      var text := FormatName(pool[picks[i] % |pool|], MentionLink(members[i]));
      if text.None? {
        return;
      }
      welcomes := welcomes + [text.value];
      i := i + 1;
    }
  }
}
