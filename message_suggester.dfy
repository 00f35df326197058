/**
  The read loop of `generateSuggestions` in src/components/MessageSuggester.tsx:
  the client reads the reply of `/api/suggest-messages` chunk by chunk,
  carries the text after the last newline over to the next chunk, and
  shows at most three non-empty lines. When the stream ends normally the
  trimmed leftover becomes one more line; when a read throws, the lines
  shown so far stay and the leftover is dropped. `loading` is true while
  the loop runs.

  The decoded chunks and the point where a read throws are the parameter
  `stream`; the React state cells are the fields of `Suggester`.
*/
module MessageSuggester {
  import opened Wrappers
  import opened Text
  import SuggestMessages

  /** The decoded chunks of the response body, in order. `failsAt == Some(k)`
      makes the read after the first `k` chunks throw (for `k == 0` this
      stands for a failed `fetch` or a missing body as well); `None` lets the
      stream end normally. */
  datatype Stream = Stream(chunks: seq<string>, failsAt: Option<nat>)

  /** The text of the chunks, in order. */
  function Concat(chunks: seq<string>): (s: string)
    ensures chunks == [] ==> s == []
  {
    if chunks == [] then [] else Concat(chunks[..|chunks| - 1]) + chunks[|chunks| - 1]
  }

  /** `lines.filter(Boolean)`: the non-empty lines. */
  function NonEmpty(lines: seq<string>): (r: seq<string>)
    ensures forall e :: e in r ==> e != [] && e in lines
  {
    if lines == [] then []
    else NonEmpty(lines[..|lines| - 1]) + (if Last(lines) == [] then [] else [Last(lines)])
  }

  /** Some read throws before the stream is done. */
  predicate Fails(s: Stream) {
    s.failsAt.Some? && s.failsAt.value <= |s.chunks|
  }

  /** How many chunks arrive before the loop stops. */
  function Received(s: Stream): (n: nat)
    ensures n <= |s.chunks|
  {
    if Fails(s) then s.failsAt.value else |s.chunks|
  }

  /** The text received, split at its newlines. */
  function Lines(s: Stream): (parts: seq<string>)
    ensures |parts| >= 1
  {
    Split(Concat(s.chunks[..Received(s)]), "\n")
  }

  /** The suggestions the component ends up showing, defined on the whole
      received text rather than chunk by chunk: the first three non-empty
      complete lines, followed (if there is room, the stream ended normally
      and it is not blank) by the trimmed text after the last newline. */
  function Shown(s: Stream): seq<string> {
    var parts := Lines(s);
    var complete := Take(NonEmpty(parts[..|parts| - 1]), 3);
    var rest := Trim(Last(parts));
    if Fails(s) || rest == [] then complete else Take(complete + [rest], 3)
  }

  /** The component's state. */
  class Suggester {
    var suggestions: seq<string>
    var loading: bool

    constructor ()
      ensures suggestions == [] && !loading
    {
      suggestions := [];
      loading := false;
    }

    /** `generateSuggestions`: the state afterwards is what `Shown` says,
        whatever the chunk boundaries and wherever a read throws. */
    method GenerateSuggestions(s: Stream)
      modifies this
      ensures suggestions == Shown(s) && !loading
    {
      loading := true;
      suggestions := [];
      var buffer := "";
      var i := 0;
      var failed := false;
      ghost var complete: seq<string> := [];
      while !failed && i < |s.chunks|
        invariant 0 <= i <= |s.chunks| && loading
        invariant s.failsAt.Some? ==> i <= s.failsAt.value
        invariant failed ==> s.failsAt == Some(i)
        invariant Split(Concat(s.chunks[..i]), "\n") == complete + [buffer]
        invariant suggestions == Take(NonEmpty(complete), 3)
        decreases |s.chunks| - i, !failed
      {
        if s.failsAt == Some(i) {
          failed := true;
        } else {
          ReadStep(s.chunks, i, complete, buffer);
          buffer := buffer + s.chunks[i];
          var lines := Split(buffer, "\n");
          buffer := lines[|lines| - 1];
          FilteredStep(complete, lines[..|lines| - 1]);
          suggestions := Take(suggestions + NonEmpty(lines[..|lines| - 1]), 3);
          complete := complete + lines[..|lines| - 1];
          i := i + 1;
        }
      }
      if !failed && s.failsAt == Some(|s.chunks|) {
        // The read that would report `done` throws instead.
        failed := true;
      }
      ShownFrom(s, complete, buffer);
      if !failed && Trim(buffer) != [] {
        suggestions := Take(suggestions + [Trim(buffer)], 3);
      }
      loading := false;
    }
  }

  // ---------------------------------------------------------------- lemmas

  /** The text of one more chunk is the text so far followed by it. */
  lemma ConcatStep(chunks: seq<string>, i: nat)
    requires i < |chunks|
    ensures Concat(chunks[..i + 1]) == Concat(chunks[..i]) + chunks[i]
  {
    assert chunks[..i + 1][..i] == chunks[..i];
  }

  /** One more chunk: the complete lines so far stay, and the carried text
      is split again together with the chunk. */
  lemma ReadStep(chunks: seq<string>, i: nat, complete: seq<string>, buffer: string)
    requires i < |chunks|
    requires Split(Concat(chunks[..i]), "\n") == complete + [buffer]
    ensures var lines := Split(buffer + chunks[i], "\n");
            Split(Concat(chunks[..i + 1]), "\n") == (complete + lines[..|lines| - 1]) + [Last(lines)]
  {
    ConcatStep(chunks, i);
    SplitConcat(Concat(chunks[..i]), chunks[i], "\n");
    Regroup(Split(Concat(chunks[..i]), "\n"), complete, buffer, Split(buffer + chunks[i], "\n"));
  }

  /** The list bookkeeping of `ReadStep`. */
  lemma Regroup(parts: seq<string>, complete: seq<string>, buffer: string, lines: seq<string>)
    requires parts == complete + [buffer] && |lines| >= 1
    ensures parts[..|parts| - 1] == complete && Last(parts) == buffer
    ensures complete + lines == (complete + lines[..|lines| - 1]) + [Last(lines)]
  {
    assert lines == lines[..|lines| - 1] + [Last(lines)];
  }

  /** Cutting the shown lines to three before appending the new ones, and
      cutting again, shows the first three of all non-empty lines. */
  lemma FilteredStep(complete: seq<string>, newLines: seq<string>)
    ensures Take(Take(NonEmpty(complete), 3) + NonEmpty(newLines), 3) == Take(NonEmpty(complete + newLines), 3)
  {
    NonEmptyAppend(complete, newLines);
    TakeAbsorbs(NonEmpty(complete), NonEmpty(newLines), 3);
  }

  /** What the loop leaves behind determines what is shown. */
  lemma ShownFrom(s: Stream, complete: seq<string>, buffer: string)
    requires Lines(s) == complete + [buffer]
    ensures Shown(s) == if Fails(s) || Trim(buffer) == [] then Take(NonEmpty(complete), 3)
                        else Take(Take(NonEmpty(complete), 3) + [Trim(buffer)], 3)
  {
    var parts := Lines(s);
    assert parts[..|parts| - 1] == complete;
  }

  /** Filtering distributes over concatenation. */
  lemma {:induction false} NonEmptyAppend(a: seq<string>, b: seq<string>)
    ensures NonEmpty(a + b) == NonEmpty(a) + NonEmpty(b)
    decreases |b|
  {
    if b == [] {
      assert a + b == a;
    } else {
      NonEmptyAppend(a, b[..|b| - 1]);
      assert (a + b)[..|a + b| - 1] == a + b[..|b| - 1];
    }
  }

  /** Cutting to `n` before appending more and cutting again loses nothing:
      `[...prev, ...newLines].slice(0, 3)` on an already cut `prev`. */
  lemma TakeAbsorbs<T>(a: seq<T>, b: seq<T>, n: nat)
    ensures Take(Take(a, n) + b, n) == Take(a + b, n)
  {
    if |a| > n {
      assert (Take(a, n) + b)[..n] == (a + b)[..n];
    }
  }

  /** The component never shows more than three suggestions, none of them
      empty and none holding a newline, and every one is a line of the
      received text or its trimmed last line. */
  lemma ShownBounded(s: Stream)
    ensures |Shown(s)| <= 3
    ensures forall e :: e in Shown(s) ==> e != [] && (e in Lines(s)[..|Lines(s)| - 1] || e == Trim(Last(Lines(s))))
    ensures forall e :: e in Shown(s) ==> '\n' !in e
  {
    var parts := Lines(s);
    var complete := Take(NonEmpty(parts[..|parts| - 1]), 3);
    forall e | e in complete ensures e in NonEmpty(parts[..|parts| - 1]) {
      var k :| 0 <= k < |complete| && complete[k] == e;
    }
    SplitPartsFree(Concat(s.chunks[..Received(s)]), "\n");
    var last := Last(parts);
    assert '\n' !in last;
    var t := Trim(last);
    TrimIsBlankSlice(last);
    forall e | e in Shown(s) ensures '\n' !in e {
      if e != t {
        var k :| 0 <= k < |parts| - 1 && parts[k] == e;
      }
    }
  }

  /** The earliest lines win: lines after the first three non-empty ones,
      and the leftover then, are never shown. */
  lemma EarliestKept(s: Stream)
    ensures var parts := Lines(s);
            var nonEmpty := NonEmpty(parts[..|parts| - 1]);
            |nonEmpty| >= 3 ==> Shown(s) == nonEmpty[..3]
  {
  }

  /** When a read throws, the leftover after the last newline is dropped;
      with a normal end it is shown exactly when it is not blank and there
      is room. */
  lemma LeftoverOnlyAtNormalEnd(s: Stream)
    ensures var parts := Lines(s);
            var complete := Take(NonEmpty(parts[..|parts| - 1]), 3);
            && (Fails(s) ==> Shown(s) == complete)
            && (!Fails(s) && |complete| < 3 && !IsBlank(Last(parts)) ==>
                  Shown(s) == complete + [Trim(Last(parts))])
            && (IsBlank(Last(parts)) ==> Shown(s) == complete)
  {
    TrimEmptyIffBlank(Last(Lines(s)));
  }

  /** Text without a newline is one piece when split at newlines. */
  lemma SplitWithoutNewline(t: string)
    requires '\n' !in t
    ensures Split(t, "\n") == [t]
  {
    SplitJoin([t], "\n");
  }

  /** A body without a newline that arrives completely is shown as one
      suggestion: the whole body, trimmed, unless it is blank. */
  lemma OneLineBodyShownWhole(s: Stream)
    requires !Fails(s) && '\n' !in Concat(s.chunks)
    ensures Shown(s) == if IsBlank(Concat(s.chunks)) then [] else [Trim(Concat(s.chunks))]
  {
    assert s.chunks[..|s.chunks|] == s.chunks;
    SplitWithoutNewline(Concat(s.chunks));
    TrimEmptyIffBlank(Concat(s.chunks));
  }

  /** The server's answer to a successful call joins its three replies with
      `||` and has no newline when the replies have none, so the component
      shows it as a single suggestion holding all three. */
  lemma ServerRepliesShownAsOne(s: Stream, message: string, text: string, order: seq<nat>)
    requires SuggestMessages.IsShuffle(order) && !Fails(s)
    requires Concat(s.chunks) == Join(SuggestMessages.Replies(message, text, order), "||")
    requires forall e :: e in SuggestMessages.Replies(message, text, order) ==> '\n' !in e
    ensures Shown(s) == [Trim(Concat(s.chunks))]
  {
    var r := SuggestMessages.Replies(message, text, order);
    SuggestMessages.RepliesShape(message, text, order);
    forall k | 0 <= k < |r| ensures '\n' !in r[k] {
      assert r[k] in r;
    }
    JoinAvoids(r, "||", '\n');
    var body := Concat(s.chunks);
    assert body == r[0] + "||" + Join(r[1..], "||");
    assert body[|r[0]|] == '|';
    OneLineBodyShownWhole(s);
  }

  /** What the component evidently means to show: the body split at the
      server's `||` separator, non-empty pieces, at most three. */
  function IntendedShown(body: string): (r: seq<string>)
    ensures |r| <= 3
  {
    Take(NonEmpty(Split(body, "||")), 3)
  }

  lemma {:induction false} NonEmptyKeepsAll(lines: seq<string>)
    requires forall e :: e in lines ==> e != []
    ensures NonEmpty(lines) == lines
    decreases |lines|
  {
    if lines != [] {
      var init := lines[..|lines| - 1];
      forall e | e in init ensures e != [] {
        var k :| 0 <= k < |init| && init[k] == e;
        assert e in lines;
      }
      NonEmptyKeepsAll(init);
      assert Last(lines) in lines;
      assert init + [Last(lines)] == lines;
    }
  }

  /** Split at `||`, the server's successful answer gives back its three
      replies when none of them holds a `|`. */
  lemma IntendedShowsReplies(message: string, text: string, order: seq<nat>)
    requires SuggestMessages.IsShuffle(order)
    requires forall e :: e in SuggestMessages.Replies(message, text, order) ==> '|' !in e
    ensures IntendedShown(Join(SuggestMessages.Replies(message, text, order), "||")) ==
              SuggestMessages.Replies(message, text, order)
  {
    var r := SuggestMessages.Replies(message, text, order);
    SuggestMessages.RepliesShape(message, text, order);
    SuggestMessages.RepliesNonEmpty(message, text, order);
    forall k | 0 <= k < |r| ensures "||"[0] !in r[k] {
      assert r[k] in r;
    }
    SplitJoin(r, "||");
    NonEmptyKeepsAll(r);
  }
}
