/** The advice text attached to an ideal-capacity figure. The localised
    messages are tokens; a fragment lists alternatives that are joined with
    the localised "or", and the fragments of one piece of advice are joined
    with the localised "and". */
module Advice {

  /** The localised messages the advice is built from. */
  datatype Message =
    | IncreaseScheduledTime   // bsc.text_increase_scheduled_time
    | AddProfiles             // bsc.text_add_profiles
    | DecreaseScheduledTime   // bsc.text_decrease_scheduled_time
    | DelayProjectEndDate     // bsc.text_delay_project_end_date

  /** A word of the rendered text: a message, or one of the two connectives. */
  datatype Word = Say(message: Message) | OrWord | AndWord

  /** Alternatives offered together, rendered joined by "or". */
  type Fragment = seq<Message>

  /** Ruby's `Array#join(sep)` over token sequences. */
  function Join<T>(parts: seq<seq<T>>, sep: T): seq<T> {
    if |parts| == 0 then []
    else if |parts| == 1 then parts[0]
    else parts[0] + [sep] + Join(parts[1..], sep)
  }

  /** Cuts `s` at every `sep`; the inverse of `Join` on separator-free parts. */
  function Split<T(==)>(s: seq<T>, sep: T): (r: seq<seq<T>>)
    ensures |r| >= 1
  {
    if s == [] then [[]]
    else
      var rest := Split(s[1..], sep);
      if s[0] == sep then [[]] + rest
      else [[s[0]] + rest[0]] + rest[1..]
  }

  /** Splitting a separator-free run followed by a separator. */
  lemma {:induction false} SplitPrefix<T>(a: seq<T>, b: seq<T>, sep: T)
    requires sep !in a
    ensures Split(a + [sep] + b, sep) == [a] + Split(b, sep)
  {
    if a == [] {
      assert a + [sep] + b == [sep] + b;
      assert ([sep] + b)[1..] == b;
    } else {
      assert (a + [sep] + b)[1..] == a[1..] + [sep] + b;
      SplitPrefix(a[1..], b, sep);
      assert [a[0]] + a[1..] == a;
    }
  }

  /** A separator-free run is a single part. */
  lemma {:induction false} SplitPlain<T>(a: seq<T>, sep: T)
    requires sep !in a
    ensures Split(a, sep) == [a]
  {
    if a != [] {
      SplitPlain(a[1..], sep);
      assert [a[0]] + a[1..] == a;
    }
  }

  /** `Join` loses nothing: the parts come back from the joined text when
      none of them contains the separator. */
  lemma {:induction false} SplitJoin<T>(parts: seq<seq<T>>, sep: T)
    requires |parts| >= 1
    requires forall i :: 0 <= i < |parts| ==> sep !in parts[i]
    ensures Split(Join(parts, sep), sep) == parts
  {
    if |parts| == 1 {
      SplitPlain(parts[0], sep);
    } else {
      SplitJoin(parts[1..], sep);
      SplitPrefix(parts[0], Join(parts[1..], sep), sep);
      assert [parts[0]] + parts[1..] == parts;
    }
  }

  /** Every word of a joined text is the separator or a word of some part. */
  lemma {:induction false} JoinMembers<T>(parts: seq<seq<T>>, sep: T, w: T)
    requires w in Join(parts, sep)
    ensures w == sep || exists i :: 0 <= i < |parts| && w in parts[i]
  {
    if |parts| > 1 && w !in parts[0] && w != sep {
      JoinMembers(parts[1..], sep, w);
      var i :| 0 <= i < |parts[1..]| && w in parts[1..][i];
      assert w in parts[i + 1];
    }
  }

  /** A fragment as text: its alternatives joined by "or". */
  function FragmentText(f: Fragment): seq<Word> {
    Join(seq(|f|, i requires 0 <= i < |f| => [Say(f[i])]), OrWord)
  }

  /** `details.join(l(:"bsc.text_and"))`: the fragments joined by "and". */
  function Render(details: seq<Fragment>): (text: seq<Word>)
    ensures (forall i :: 0 <= i < |details| ==> |details[i]| > 0) ==> (|text| > 0 <==> |details| > 0)
  {
    var parts := seq(|details|, i requires 0 <= i < |details| => FragmentText(details[i]));
    assert forall i :: 0 <= i < |details| && |details[i]| > 0 ==> |parts[i]| > 0 by {
      forall i | 0 <= i < |details| && |details[i]| > 0 ensures |parts[i]| > 0 {
        FragmentNonEmpty(details[i]);
      }
    }
    Join(parts, AndWord)
  }

  lemma FragmentNonEmpty(f: Fragment)
    requires |f| > 0
    ensures |FragmentText(f)| > 0
  {
  }

  /** A fragment's text never contains "and". */
  lemma FragmentHasNoAnd(f: Fragment)
    ensures AndWord !in FragmentText(f)
  {
    var parts := seq(|f|, i requires 0 <= i < |f| => [Say(f[i])]);
    if AndWord in Join(parts, OrWord) {
      JoinMembers(parts, OrWord, AndWord);
    }
  }

  /** The rendered advice determines its fragments: cutting the text at
      every "and" gives back each fragment's text, in order. */
  lemma RenderRoundTrip(details: seq<Fragment>)
    requires |details| >= 1
    ensures Split(Render(details), AndWord)
            == seq(|details|, i requires 0 <= i < |details| => FragmentText(details[i]))
  {
    var parts := seq(|details|, i requires 0 <= i < |details| => FragmentText(details[i]));
    forall i | 0 <= i < |parts| ensures AndWord !in parts[i] {
      FragmentHasNoAnd(details[i]);
    }
    SplitJoin(parts, AndWord);
  }
}
