/**
  `POST /api/suggest-messages` (src/app/api/suggest-messages/route.ts):
  validate the request, ask a language model for three replies separated
  by `||`, clean and filter what it wrote, make up the shortfall from
  templates built on the message's first words, drop duplicates, pad back
  to three and answer with the three joined by `||`. Whatever goes wrong
  after validation, the answer is still 200 with three fixed templates.

  The model's text (or its failure) is the parameter `generation`; the
  order the shuffle leaves the six templates in is the parameter `order`.
*/
module SuggestMessages {
  import opened Wrappers
  import opened Text

  /** The `message` property of the request body. */
  datatype Field = Absent | Str(s: string) | Other(received: string)

  /** What the request body holds: text that is not JSON, a JSON value
      that is not an object, or an object. */
  datatype Payload = Malformed | NonObject(received: string) | Object(message: Field)

  datatype Generation = Failed | Generated(text: string)

  datatype Reply = Reply(status: nat, body: string)

  /** The incoming request. Its body can be read once: a second
      `req.json()` throws because the body is already used. */
  class Request {
    const body: Payload
    var bodyUsed: bool

    constructor (body: Payload)
      ensures this.body == body && !bodyUsed
    {
      this.body := body;
      bodyUsed := false;
    }

    /** `await req.json()`; `None` when it throws. */
    method ReadJson() returns (r: Option<Payload>)
      modifies this
      ensures bodyUsed
      ensures r == if old(bodyUsed) || body.Malformed? then None else Some(body)
    {
      r := if bodyUsed || body.Malformed? then None else Some(body);
      bodyUsed := true;
    }
  }

  // ------------------------------------------------------------ validation

  /** `RequestSchema.safeParse(body)`: an object whose `message` is a
      non-empty string. */
  function ParseRequest(p: Payload): Result<string>
    requires !p.Malformed?
  {
    match p
    case NonObject(received) => Invalid(["Expected object, received " + received])
    case Object(Absent) => Invalid(["Required"])
    case Object(Other(received)) => Invalid(["Expected string, received " + received])
    case Object(Str(s)) => if s == [] then Invalid(["Message is required"]) else Ok(s)
  }

  /** `parsed.error.issues[0]?.message ?? "Invalid input"`. */
  function FirstIssue(issues: seq<string>): string {
    if issues == [] then "Invalid input" else issues[0]
  }

  // -------------------------------------------------------------- cleaning

  predicate IsQuote(c: char) {
    c == '"' || c == '\''
  }

  /** `.replace(/^["']|["']$/g, '')`: one quote off the front, then one off
      the back of what is left. */
  function Unquote(s: string): string {
    var a := if |s| > 0 && IsQuote(s[0]) then s[1..] else s;
    if |a| > 0 && IsQuote(a[|a| - 1]) then a[..|a| - 1] else a
  }

  /** The number of decimal digits `s` starts with. */
  function LeadingDigits(s: string): (n: nat)
    ensures n <= |s|
  {
    if |s| > 0 && IsDigit(s[0]) then 1 + LeadingDigits(s[1..]) else 0
  }

  /** `.replace(/^\d+[\.\)]\s*\/, '')`: a leading `N.` or `N)` and the
      spaces after it. */
  function DropNumbering(s: string): string {
    var n := LeadingDigits(s);
    if 0 < n < |s| && (s[n] == '.' || s[n] == ')') then TrimStart(s[n + 1..]) else s
  }

  /** `.replace(/^-\s*\/, '')`. */
  function DropDash(s: string): string {
    if |s| > 0 && s[0] == '-' then TrimStart(s[1..]) else s
  }

  /** Where a match of `/suggestion\s*\d+\s*:/i` that starts at `i` ends.
      The classes `\s`, `\d` and `:` are disjoint, so the greedy match is
      the only one; the `i` flag without `u` folds ASCII letters only. */
  function LabelEnd(s: string, i: nat): (e: Option<nat>)
    requires i <= |s|
    ensures e.Some? ==> i < e.value <= |s|
  {
    if i + 10 > |s| || Lower(s[i..i + 10]) != "suggestion" then None
    else
      var j := i + 10 + LeadingSpaces(s[i + 10..]);
      var d := LeadingDigits(s[j..]);
      if d == 0 then None
      else
        var k := j + d + LeadingSpaces(s[j + d..]);
        if k < |s| && s[k] == ':' then Some(k + 1) else None
  }

  /** The leftmost match of the label pattern at or after `i`. */
  function FirstLabel(s: string, i: nat): (m: Option<(nat, nat)>)
    requires i <= |s|
    ensures m.Some? ==> i <= m.value.0 < m.value.1 <= |s|
    ensures m.Some? ==> LabelEnd(s, m.value.0) == Some(m.value.1)
    ensures m.Some? ==> forall p :: i <= p < m.value.0 ==> LabelEnd(s, p).None?
    ensures m.None? ==> forall p :: i <= p <= |s| ==> LabelEnd(s, p).None?
    decreases |s| - i
  {
    var e := LabelEnd(s, i);
    if e.Some? then Some((i, e.value))
    else if i == |s| then None
    else FirstLabel(s, i + 1)
  }

  /** `.replace(/suggestion\s*\d+\s*:/i, '')`: the first label only. */
  function DropLabel(s: string): string {
    match FirstLabel(s, 0)
    case None => s
    case Some((i, e)) => s[..i] + s[e..]
  }

  /** The cleaning applied to every `||`-separated entry. */
  function Clean(s: string): string {
    Trim(DropLabel(DropDash(DropNumbering(Unquote(Trim(s))))))
  }

  function CleanAll(entries: seq<string>): (r: seq<string>)
    ensures |r| == |entries| && forall k :: 0 <= k < |r| ==> r[k] == Clean(entries[k])
  {
    seq(|entries|, k requires 0 <= k < |entries| => Clean(entries[k]))
  }

  /** The filter on cleaned entries: longer than five characters and
      mentioning none of the words that give away a preamble. */
  predicate Keep(s: string) {
    var l := Lower(s);
    && |s| > 5
    && !Contains(l, "format") && !Contains(l, "suggestion")
    && !Contains(l, "response") && !Contains(l, "here are")
  }

  function KeepAll(entries: seq<string>): seq<string> {
    if entries == [] then []
    else (if Keep(entries[0]) then [entries[0]] else []) + KeepAll(entries[1..])
  }

  /** The model's replies that survive cleaning and the filter, at most three. */
  function GeneratedReplies(text: string): seq<string> {
    Take(KeepAll(CleanAll(Split(text, "||"))), 3)
  }

  // ------------------------------------------------------------- fallbacks

  /** `s.split(/\s+/)`: the pieces between runs of whitespace; a leading
      run gives an empty first piece and a trailing run an empty last one. */
  function SplitWords(s: string): (r: seq<string>)
    ensures |r| >= 1
    decreases |s|
  {
    if s == [] then [""]
    else if IsSpace(s[0]) then [""] + SplitWords(s[LeadingSpaces(s)..])
    else
      var rest := SplitWords(s[1..]);
      [[s[0]] + rest[0]] + rest[1..]
  }

  /** `message.split(/\s+/).slice(0, 3).join(' ')`. */
  function Keywords(message: string): string {
    Join(Take(SplitWords(message), 3), " ")
  }

  /** `s` with every run of whitespace replaced by a single space. */
  function Squash(s: string): string
    decreases |s|
  {
    if s == [] then []
    else if IsSpace(s[0]) then " " + Squash(s[LeadingSpaces(s)..])
    else [s[0]] + Squash(s[1..])
  }

  predicate NoSpace(s: string) {
    forall k :: 0 <= k < |s| ==> !IsSpace(s[k])
  }

  /** The number of whitespace characters in `s`. */
  function SpaceCount(s: string): nat {
    if s == [] then 0 else (if IsSpace(s[0]) then 1 else 0) + SpaceCount(s[1..])
  }

  /** The text around the keyword phrase in each of the six templates. */
  const TemplateFrames: seq<(string, string)> := [
    ("I've been thinking about ", " too. What's your perspective?"),
    ("That point about ", " really resonates. Could you elaborate?"),
    ("Your message about ", " made me curious to learn more."),
    ("I appreciate your thoughts on ", ". What else should I know?"),
    ("", " is something I've been considering lately. Tell me more!"),
    ("Your perspective on ", " is unique. I'd love to hear more.") ]

  /** The six fallback replies about the keyword phrase `kw`. */
  function Templates(kw: string): (t: seq<string>)
    ensures |t| == 6
  {
    seq(6, k requires 0 <= k < 6 => TemplateFrames[k].0 + kw + TemplateFrames[k].1)
  }

  /** `order` lists the six template positions in the order the shuffle
      left them, each once. */
  predicate IsShuffle(order: seq<nat>) {
    && |order| == 6
    && (forall k :: 0 <= k < 6 ==> order[k] < 6)
    && (forall i, j :: 0 <= i < j < 6 ==> order[i] != order[j])
  }

  function Shuffle(t: seq<string>, order: seq<nat>): (r: seq<string>)
    requires |t| == 6 && IsShuffle(order)
    ensures |r| == 6 && forall k :: 0 <= k < 6 ==> r[k] == t[order[k]]
  {
    seq(6, k requires 0 <= k < 6 => t[order[k]])
  }

  /** The generated replies, made up to three from the shuffled templates. */
  function WithFallbacks(kept: seq<string>, message: string, order: seq<nat>): seq<string>
    requires |kept| <= 3 && IsShuffle(order)
  {
    if |kept| < 3 then kept + Shuffle(Templates(Keywords(message)), order)[..3 - |kept|]
    else kept
  }

  /** `Array.from(new Set(s))`: first occurrences, in order. */
  function Dedupe(s: seq<string>): seq<string> {
    if s == [] then []
    else
      var d := Dedupe(s[..|s| - 1]);
      if s[|s| - 1] in d then d else d + [s[|s| - 1]]
  }

  /** The filler pushed while fewer than three replies remain. */
  function ContinueLine(message: string): string {
    var head := if |message| <= 30 then message else message[..30];
    "I'd love to continue our conversation about \"" + head + "...\""
  }

  function Padded(s: seq<string>, filler: string): seq<string> {
    if |s| >= 3 then s else s + seq(3 - |s|, _ => filler)
  }

  /** The three replies of a successful call. */
  function Replies(message: string, text: string, order: seq<nat>): seq<string>
    requires IsShuffle(order)
  {
    Padded(Dedupe(WithFallbacks(GeneratedReplies(text), message, order)), ContinueLine(message))
  }

  // ----------------------------------------------------------------- reply

  /** The three replies of the error path, about `subject`. */
  const CatchFrames: seq<(string, string)> := [
    ("I find ", " really fascinating. Could you tell me more?"),
    ("Your perspective on ", " is interesting. What inspired that?"),
    ("Thanks for sharing about ", ". I'd love to hear more details.") ]

  function CatchTemplates(subject: string): (t: seq<string>)
    ensures |t| == 3
  {
    seq(3, k requires 0 <= k < 3 => CatchFrames[k].0 + subject + CatchFrames[k].1)
  }

  /** What the error path makes of a second read of the body: the first two
      words of a valid message, or "this". */
  function RecoveredSubject(reread: Option<Payload>): string {
    match reread
    case Some(p) =>
      if p.Malformed? then "this"
      else (match ParseRequest(p)
            case Ok(message) => Join(Take(SplitWords(message), 2), " ")
            case Invalid(_) => "this")
    case None => "this"
  }

  /** The error path's answer: the second `req.json()` finds the body
      already used and throws, so the subject stays "this". */
  function CatchReply(): Reply {
    Reply(200, Join(CatchTemplates("this"), "||"))
  }

  /** The handler's answer. */
  function Outcome(body: Payload, generation: Generation, order: seq<nat>): Reply
    requires IsShuffle(order)
  {
    if body.Malformed? then CatchReply()
    else
      match ParseRequest(body)
      case Invalid(issues) => Reply(400, FirstIssue(issues))
      case Ok(message) =>
        if generation.Failed? || generation.text == [] then CatchReply()
        else Reply(200, Join(Replies(message, generation.text, order), "||"))
  }

  /** The shortfall below three generated replies made up from the
      shuffled templates. */
  method AddFallbacks(kept: seq<string>, message: string, order: seq<nat>) returns (suggestions: seq<string>)
    requires |kept| <= 3 && IsShuffle(order)
    ensures suggestions == WithFallbacks(kept, message, order)
  {
    suggestions := kept;
    if |suggestions| < 3 {
      var shuffled := Shuffle(Templates(Keywords(message)), order);
      suggestions := suggestions + shuffled[..3 - |suggestions|];
    }
  }

  /** The loop that pushes the filler until three replies remain. */
  method PadToThree(distinct: seq<string>, filler: string) returns (replies: seq<string>)
    ensures replies == Padded(distinct, filler)
  {
    replies := distinct;
    while |replies| < 3
      invariant |distinct| <= |replies|
      invariant |distinct| < 3 ==> |replies| <= 3
      invariant |distinct| >= 3 ==> replies == distinct
      invariant replies == distinct + seq(|replies| - |distinct|, _ => filler)
    {
      replies := replies + [filler];
    }
  }

  /** The success path after the model answered with `text`. */
  method Suggest(message: string, text: string, order: seq<nat>) returns (replies: seq<string>)
    requires IsShuffle(order)
    ensures replies == Replies(message, text, order)
  {
    var kept := GeneratedReplies(text);
    var suggestions := AddFallbacks(kept, message, order);
    replies := PadToThree(Dedupe(suggestions), ContinueLine(message));
  }

  method Post(req: Request, generation: Generation, order: seq<nat>) returns (reply: Reply)
    requires !req.bodyUsed && IsShuffle(order)
    modifies req
    ensures reply == Outcome(req.body, generation, order)
  {
    var body := req.ReadJson();
    if body.Some? {
      var parsed := ParseRequest(body.value);
      if parsed.Invalid? {
        return Reply(400, FirstIssue(parsed.errors));
      }
      if generation.Generated? && generation.text != [] {
        var replies := Suggest(parsed.value, generation.text, order);
        return Reply(200, Join(replies, "||"));
      }
    }
    // The catch block: read the body again for the message's first words.
    var again := req.ReadJson();
    var subject := RecoveredSubject(again);
    return Reply(200, Join(CatchTemplates(subject), "||"));
  }

  // ---------------------------------------------------------------- lemmas

  /** `Set` keeps each value once, in the order it first appeared, and
      loses none. */
  lemma {:induction false} DedupeFacts(s: seq<string>)
    ensures |Dedupe(s)| <= |s|
    ensures forall x :: x in Dedupe(s) <==> x in s
    ensures forall i, j :: 0 <= i < j < |Dedupe(s)| ==> Dedupe(s)[i] != Dedupe(s)[j]
  {
    if s != [] {
      DedupeFacts(s[..|s| - 1]);
      assert s == s[..|s| - 1] + [s[|s| - 1]];
    }
  }

  /** Removing duplicates from a longer list starts the same way. */
  lemma {:induction false} DedupePrefix(x: seq<string>, y: seq<string>)
    ensures |Dedupe(x)| <= |Dedupe(x + y)|
    ensures Dedupe(x + y)[..|Dedupe(x)|] == Dedupe(x)
    decreases |y|
  {
    if y == [] {
      assert x + y == x;
    } else {
      var y' := y[..|y| - 1];
      DedupePrefix(x, y');
      assert (x + y)[..|x + y| - 1] == x + y';
    }
  }

  /** `.filter(...)` keeps exactly the entries that pass, and no more
      entries than it was given. */
  lemma {:induction false} KeepAllFacts(entries: seq<string>)
    ensures forall e :: e in KeepAll(entries) <==> e in entries && Keep(e)
    ensures |KeepAll(entries)| <= |entries|
  {
    if entries != [] {
      KeepAllFacts(entries[1..]);
      assert entries == [entries[0]] + entries[1..];
    }
  }

  /** Filtering a concatenation filters each part and keeps them in
      order; with `KeepAll([e])` being `[e]` or `[]`, this fixes the
      filter to the passing entries in their input order. */
  lemma {:induction false} KeepAllAppend(a: seq<string>, b: seq<string>)
    ensures KeepAll(a + b) == KeepAll(a) + KeepAll(b)
    decreases |a|
  {
    if a == [] {
      assert a + b == b;
    } else {
      assert (a + b)[1..] == a[1..] + b;
      KeepAllAppend(a[1..], b);
    }
  }

  /** What `Clean` returns has no space at either end. */
  lemma CleanIsTrimmed(s: string)
    ensures IsTrimmed(Clean(s))
  {
    TrimIdempotent(DropLabel(DropDash(DropNumbering(Unquote(Trim(s))))));
  }

  /** An entry with nothing to clean (trimmed, no quote at either end, no
      numbering, no dash, no label) is left as it is. */
  lemma CleanKeepsPlainEntry(s: string)
    requires IsTrimmed(s)
    requires s != [] ==> !IsQuote(s[0]) && !IsQuote(s[|s| - 1]) && !IsDigit(s[0]) && s[0] != '-'
    requires FirstLabel(s, 0).None?
    ensures Clean(s) == s
  {
    TrimmedUnchanged(s);
    assert Unquote(s) == s;
    assert s != [] ==> LeadingDigits(s) == 0;
  }

  /** At most three model replies are kept, each trimmed and passing the
      filter, and they are the first survivors in the model's order. */
  lemma GeneratedRepliesFiltered(text: string)
    ensures |GeneratedReplies(text)| <= 3
    ensures forall e :: e in GeneratedReplies(text) ==> Keep(e) && IsTrimmed(e)
    ensures GeneratedReplies(text) == KeepAll(CleanAll(Split(text, "||")))[..|GeneratedReplies(text)|]
  {
    var cleaned := CleanAll(Split(text, "||"));
    KeepAllFacts(cleaned);
    forall e | e in GeneratedReplies(text) ensures Keep(e) && IsTrimmed(e) {
      assert e in KeepAll(cleaned);
      var k :| 0 <= k < |cleaned| && cleaned[k] == e;
      CleanIsTrimmed(Split(text, "||")[k]);
    }
  }

  /** The templates only make up the shortfall: the generated replies
      stay in front, and every added entry is one of the six templates. */
  lemma WithFallbacksShape(kept: seq<string>, message: string, order: seq<nat>)
    requires |kept| <= 3 && IsShuffle(order)
    ensures var w := WithFallbacks(kept, message, order);
            && |w| == 3 && w[..|kept|] == kept
            && forall k :: |kept| <= k < 3 ==> w[k] in Templates(Keywords(message))
  {
    var w := WithFallbacks(kept, message, order);
    if |kept| < 3 {
      var t := Shuffle(Templates(Keywords(message)), order);
      forall k | |kept| <= k < 3 ensures w[k] in Templates(Keywords(message)) {
        assert w[k] == t[k - |kept|];
      }
    }
  }

  lemma PaddedShape(s: seq<string>, filler: string)
    requires |s| <= 3
    ensures var p := Padded(s, filler);
            |p| == 3 && p[..|s|] == s && forall k :: |s| <= k < 3 ==> p[k] == filler
  {
  }

  /** Removing duplicates from three entries that start with `g` and
      padding back to three keeps `g`'s distinct entries in front. */
  lemma PadDedupeShape(g: seq<string>, w: seq<string>, filler: string)
    requires |g| <= 3 && |w| == 3 && w[..|g|] == g
    ensures var r := Padded(Dedupe(w), filler);
            && |r| == 3
            && |Dedupe(g)| <= |Dedupe(w)|
            && r[..|Dedupe(g)|] == Dedupe(g)
            && r[..|Dedupe(w)|] == Dedupe(w)
            && (forall k :: |Dedupe(w)| <= k < 3 ==> r[k] == filler)
            && (|g| == 3 ==> Dedupe(w) == Dedupe(g))
  {
    assert w == g + w[|g|..];
    DedupePrefix(g, w[|g|..]);
    DedupeFacts(w);
    PaddedShape(Dedupe(w), filler);
  }

  /** A successful call always has exactly three replies. The surviving
      model replies come first, in order and without repeats; templates
      fill in only when fewer than three survive; the filler only pads
      what duplicates removed. */
  lemma RepliesShape(message: string, text: string, order: seq<nat>)
    requires IsShuffle(order)
    ensures var r := Replies(message, text, order);
            var g := GeneratedReplies(text);
            var merged := Dedupe(WithFallbacks(g, message, order));
            && |r| == 3
            && |Dedupe(g)| <= |merged|
            && r[..|Dedupe(g)|] == Dedupe(g)
            && r[..|merged|] == merged
            && (forall k :: |merged| <= k < 3 ==> r[k] == ContinueLine(message))
            && (|g| == 3 ==> merged == Dedupe(g))
  {
    var g := GeneratedReplies(text);
    GeneratedRepliesFiltered(text);
    WithFallbacksShape(g, message, order);
    PadDedupeShape(g, WithFallbacks(g, message, order), ContinueLine(message));
  }

  /** Every reply is a model reply, a template about the message's first
      words, or the filler. */
  lemma RepliesDrawnFrom(message: string, text: string, order: seq<nat>)
    requires IsShuffle(order)
    ensures forall e :: e in Replies(message, text, order) ==>
              e in GeneratedReplies(text) || e in Templates(Keywords(message)) || e == ContinueLine(message)
  {
    var g := GeneratedReplies(text);
    GeneratedRepliesFiltered(text);
    var w := WithFallbacks(g, message, order);
    WithFallbacksShape(g, message, order);
    DedupeFacts(w);
    var merged := Dedupe(w);
    PaddedShape(merged, ContinueLine(message));
    var r := Replies(message, text, order);
    forall e | e in r
      ensures e in g || e in Templates(Keywords(message)) || e == ContinueLine(message)
    {
      var k :| 0 <= k < |r| && r[k] == e;
      if k < |merged| {
        assert e in merged;
        var m :| 0 <= m < |w| && w[m] == e;
        if m < |g| {
          assert e == g[m];
        }
      }
    }
  }

  /** Every template is longer than the keyword phrase it is built on. */
  lemma TemplatesLonger(kw: string)
    ensures forall e :: e in Templates(kw) ==> |e| > |kw|
  {
    var t := Templates(kw);
    forall e | e in t ensures |e| > |kw| {
      var k :| 0 <= k < 6 && t[k] == e;
      assert |TemplateFrames[k].1| > 0;
    }
  }

  /** No reply of a successful call is empty. */
  lemma RepliesNonEmpty(message: string, text: string, order: seq<nat>)
    requires IsShuffle(order)
    ensures forall e :: e in Replies(message, text, order) ==> e != []
  {
    RepliesDrawnFrom(message, text, order);
    GeneratedRepliesFiltered(text);
    TemplatesLonger(Keywords(message));
  }

  /** Split back on `||`, the body gives the three replies, provided no
      reply contains a `|` of its own. */
  lemma BodySplitsIntoReplies(message: string, text: string, order: seq<nat>)
    requires IsShuffle(order)
    requires forall e :: e in Replies(message, text, order) ==> '|' !in e
    ensures |Split(Join(Replies(message, text, order), "||"), "||")| == 3
  {
    var r := Replies(message, text, order);
    RepliesShape(message, text, order);
    forall k | 0 <= k < |r| ensures "||"[0] !in r[k] {
      assert r[k] in r;
    }
    SplitJoin(r, "||");
  }

  lemma {:induction false} SplitWordsOfWord(s: string)
    requires NoSpace(s)
    ensures SplitWords(s) == [s]
  {
    if s != [] {
      SplitWordsOfWord(s[1..]);
      assert [s[0]] + s[1..] == s;
    }
  }

  /** A message without whitespace is its own keyword phrase. */
  lemma KeywordsOfOneWord(message: string)
    requires NoSpace(message)
    ensures Keywords(message) == message
  {
    SplitWordsOfWord(message);
  }

  lemma {:induction false} SpaceCountAppend(x: string, y: string)
    ensures SpaceCount(x + y) == SpaceCount(x) + SpaceCount(y)
    decreases |x|
  {
    if x == [] {
      assert x + y == y;
    } else {
      assert (x + y)[1..] == x[1..] + y;
      SpaceCountAppend(x[1..], y);
    }
  }

  lemma {:induction false} NoSpaceCount(s: string)
    requires NoSpace(s)
    ensures SpaceCount(s) == 0
    decreases |s|
  {
    if s != [] {
      assert forall k :: 0 <= k < |s| - 1 ==> s[1..][k] == s[k + 1];
      NoSpaceCount(s[1..]);
    }
  }

  /** Pieces free of whitespace joined by single spaces hold one space
      per gap between pieces. */
  lemma {:induction false} JoinWordsCount(words: seq<string>)
    requires |words| >= 1 && forall i :: 0 <= i < |words| ==> NoSpace(words[i])
    ensures SpaceCount(Join(words, " ")) == |words| - 1
    decreases |words|
  {
    NoSpaceCount(words[0]);
    if |words| > 1 {
      JoinWordsCount(words[1..]);
      SpaceCountAppend(words[0], " ");
      SpaceCountAppend(words[0] + " ", Join(words[1..], " "));
    }
  }

  /** `split(/\s+/)` cuts the text into its whitespace-free runs: no piece
      holds whitespace, only the first and the last piece can be empty,
      and joined with single spaces the pieces give the text with each
      whitespace run squashed to one space. */
  lemma {:induction false} SplitWordsRuns(s: string)
    ensures forall i :: 0 <= i < |SplitWords(s)| ==> NoSpace(SplitWords(s)[i])
    ensures forall i :: 0 < i < |SplitWords(s)| - 1 ==> SplitWords(s)[i] != []
    ensures s != [] && !IsSpace(s[0]) ==> SplitWords(s)[0] != []
    ensures Join(SplitWords(s), " ") == Squash(s)
    decreases |s|
  {
    if s == [] {
    } else if IsSpace(s[0]) {
      var t := s[LeadingSpaces(s)..];
      LeadingSpacesExact(s);
      SplitWordsRuns(t);
      var r := SplitWords(s);
      assert r == [""] + SplitWords(t);
      assert r[1..] == SplitWords(t);
      assert t != [] ==> t[0] == s[LeadingSpaces(s)];
    } else {
      var rest := SplitWords(s[1..]);
      SplitWordsRuns(s[1..]);
      var r := SplitWords(s);
      assert r == [[s[0]] + rest[0]] + rest[1..];
      JoinConsHead(s[0], rest, " ");
      forall k | 0 <= k < |r[0]| ensures !IsSpace(r[0][k]) {
        if k > 0 {
          assert r[0][k] == rest[0][k - 1];
        }
      }
      forall i | 0 < i < |r| ensures NoSpace(r[i]) {
        assert r[i] == rest[i];
      }
    }
  }

  /** The keyword phrase is the squashed message up to, not including, its
      third space: the message's first three whitespace-free runs. */
  lemma KeywordsAreFirstWords(message: string)
    ensures StartsWith(Squash(message), Keywords(message))
    ensures SpaceCount(Keywords(message)) <= 2
    ensures |Keywords(message)| < |Squash(message)| ==>
              SpaceCount(Keywords(message)) == 2 && Squash(message)[|Keywords(message)|] == ' '
  {
    var w := SplitWords(message);
    SplitWordsRuns(message);
    JoinWordsCount(Take(w, 3));
    if |w| > 3 {
      assert w == w[..3] + w[3..];
      JoinAppend(w[..3], w[3..], " ");
    }
  }

  /** Validation: the request is refused with 400 exactly when the body is
      JSON but not an object with a non-empty string `message`, and the
      answer is the first issue zod reports. */
  lemma ValidationRefuses(body: Payload, generation: Generation, order: seq<nat>)
    requires IsShuffle(order)
    ensures Outcome(body, generation, order).status == 400 <==> !body.Malformed? && ParseRequest(body).Invalid?
    ensures !body.Malformed? && ParseRequest(body).Invalid? ==>
              Outcome(body, generation, order).body == ParseRequest(body).errors[0]
    ensures body == Object(Absent) ==> Outcome(body, generation, order) == Reply(400, "Required")
    ensures body == Object(Str("")) ==> Outcome(body, generation, order) == Reply(400, "Message is required")
  {
  }

  /** Whatever reaches the error path (a body that is not JSON, a failed
      or empty generation) is answered 200 with the three fixed templates
      about "this": the message itself is never used there. */
  lemma ErrorPathSaysThis(body: Payload, generation: Generation, order: seq<nat>)
    requires IsShuffle(order)
    requires body.Malformed? || (ParseRequest(body).Ok? && (generation.Failed? || generation.text == []))
    ensures Outcome(body, generation, order) == Reply(200, Join(CatchTemplates("this"), "||"))
  {
  }

  /** A one-word message reaching the error path is still answered about
      "this", where the first two words of the message were evidently
      meant: "pizza". */
  lemma ErrorPathIgnoresMessage()
    ensures Outcome(Object(Str("pizza")), Failed, [0, 1, 2, 3, 4, 5]) == Reply(200, Join(CatchTemplates("this"), "||"))
    ensures RecoveredSubject(Some(Object(Str("pizza")))) == "pizza"
  {
    SplitWordsOfWord("pizza");
  }

  /** Read from the body the handler already parsed, the subject is the
      first two words of the message; for a one-word message, the word. */
  lemma RecoveredSubjectNamesMessage(message: string)
    requires message != [] && forall k :: 0 <= k < |message| ==> !IsSpace(message[k])
    ensures RecoveredSubject(Some(Object(Str(message)))) == message
  {
    SplitWordsOfWord(message);
  }
}
