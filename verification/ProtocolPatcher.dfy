/** The CI script that adds WEKAFS to Manila's SUPPORTED_SHARE_PROTOCOLS tuple, as text to text. */
module ProtocolPatcher {
  import opened Results
  import opened Text

  const NAME := "SUPPORTED_SHARE_PROTOCOLS"
  const MARKER := "WEKAFS"

  // ---- locating the tuple: NAME \s* = \s* ( body ,? \s* ) ----

  /** The first index from i on that holds no white space. */
  function SkipSpace(s: string, i: nat): (r: nat)
    requires i <= |s|
    ensures i <= r <= |s|
    ensures forall k | i <= k < r :: IsSpace(s[k])
    ensures r < |s| ==> !IsSpace(s[r])
    decreases |s| - i
  {
    if i < |s| && IsSpace(s[i]) then SkipSpace(s, i + 1) else i
  }

  /** Where a match of the head starting at p ends, just after its opening parenthesis. */
  function HeadEnd(s: string, p: nat): (r: Option<nat>)
    ensures r.Some? ==> p + |NAME| < r.value <= |s|
  {
    if !At(s, p, NAME) then None
    else
      var j := SkipSpace(s, p + |NAME|);
      if j >= |s| || s[j] != '=' then None
      else
        var k := SkipSpace(s, j + 1);
        if k >= |s| || s[k] != '(' then None else Some(k + 1)
  }

  /** The first closing parenthesis from i on. */
  function Close(s: string, i: nat): (r: Option<nat>)
    requires i <= |s|
    ensures r.Some? ==> i <= r.value < |s| && s[r.value] == ')' && forall k | i <= k < r.value :: s[k] != ')'
    ensures r.None? ==> forall k | i <= k < |s| :: s[k] != ')'
    decreases |s| - i
  {
    if i == |s| then None else if s[i] == ')' then Some(i) else Close(s, i + 1)
  }

  /** A match: the head at `start`, the text between the parentheses at [open, close). */
  datatype Match = Match(start: nat, open: nat, close: nat)

  function MatchAt(s: string, p: nat): Option<Match>
  {
    match HeadEnd(s, p)
    case None => None
    case Some(h) =>
      match Close(s, h)
      case None => None
      case Some(c) => Some(Match(p, h, c))
  }

  /** PATTERN.search: the leftmost match from p on. */
  function Search(s: string, p: nat): (r: Option<Match>)
    requires p <= |s|
    ensures r.Some? ==> p <= r.value.start <= |s| && MatchAt(s, r.value.start) == r
    ensures r.Some? ==> forall q | p <= q < r.value.start :: MatchAt(s, q).None?
    ensures r.None? ==> forall q | p <= q <= |s| :: MatchAt(s, q).None?
    decreases |s| - p
  {
    if MatchAt(s, p).Some? then MatchAt(s, p) else if p == |s| then None else Search(s, p + 1)
  }

  /** The body group: lazily all but a trailing comma and white space. */
  function Body(inner: string): string
  {
    var t := StripRight(inner);
    if t != "" && t[|t| - 1] == ',' then t[..|t| - 1] else t
  }

  // ---- entries ----

  predicate IsQuote(c: char) { c == '\'' || c == '"' }

  predicate IsWord(c: char) { 'a' <= c <= 'z' || 'A' <= c <= 'Z' || '0' <= c <= '9' || c == '_' }

  function WordEnd(s: string, i: nat): (r: nat)
    requires i <= |s|
    ensures i <= r <= |s|
    ensures forall k | i <= k < r :: IsWord(s[k])
    ensures r < |s| ==> !IsWord(s[r])
    decreases |s| - i
  {
    if i < |s| && IsWord(s[i]) then WordEnd(s, i + 1) else i
  }

  /** A quoted word at i: a quote, word characters, the same quote. */
  predicate EntryAt(s: string, i: nat)
    requires i < |s|
  {
    var w := WordEnd(s, i + 1);
    IsQuote(s[i]) && i + 1 < w < |s| && s[w] == s[i]
  }

  /** re.findall of quoted words from i on: their quotes and texts, left to right. */
  function Entries(s: string, i: nat): seq<(char, string)>
    requires i <= |s|
    decreases |s| - i
  {
    if i == |s| then []
    else if EntryAt(s, i) then
      [(s[i], s[i + 1..WordEnd(s, i + 1)])] + Entries(s, WordEnd(s, i + 1) + 1)
    else Entries(s, i + 1)
  }

  predicate QuotedMarkerAt(s: string, i: nat)
  {
    i + |MARKER| + 1 < |s| && IsQuote(s[i]) && At(s, i + 1, MARKER) && IsQuote(s[i + 1 + |MARKER|])
  }

  /** WEKAFS in quotes of either kind. */
  predicate HasMarker(s: string)
  {
    exists i | 0 <= i < |s| :: QuotedMarkerAt(s, i)
  }

  // ---- the rewrite ----

  function LastLine(s: string): (r: string)
    ensures forall c | c in r :: c in s
  {
    if s == "" || s[|s| - 1] == '\n' then "" else LastLine(s[..|s| - 1]) + [s[|s| - 1]]
  }

  /** re.match(r'\s*') */
  function Indent(line: string): (r: string)
    ensures forall c | c in r :: IsSpace(c)
  {
    line[..SkipSpace(line, 0)]
  }

  function Quote(body: string): (q: char)
    ensures IsQuote(q)
  {
    var es := Entries(body, 0);
    if es == [] || !IsQuote(es[|es| - 1].0) then '\'' else es[|es| - 1].0
  }

  /** What goes between the last entry and the new one: a new line if this one would get long. */
  function Separator(body: string): (sep: string)
    ensures sep != "" && sep[0] == ',' && forall k | 1 <= k < |sep| :: IsSpace(sep[k])
  {
    var line := LastLine(body);
    if |line| + |MARKER| + 2 + 3 > 79 then
      ",\n" + (if Indent(line) == "" then "    " else Indent(line))
    else ", "
  }

  function Addition(body: string): string
  {
    [Quote(body)] + MARKER + [Quote(body)]
  }

  function NewBody(body: string): string
  {
    var b := StripRight(body);
    b + (Separator(b) + Addition(body))
  }

  function Rewritten(s: string, m: Match, body: string): string
    requires m.open <= m.close <= |s|
  {
    s[..m.open] + body + s[m.close..]
  }

  /** The script on the text of constants.py: None if there is no tuple, else the new text. */
  function Patch(s: string): Option<string>
  {
    match Search(s, 0)
    case None => None
    case Some(m) =>
      var body := Body(s[m.open..m.close]);
      if HasMarker(body) then Some(s) else Some(Rewritten(s, m, NewBody(body)))
  }

  // ---- entries are kept and WEKAFS is appended ----

  lemma EntriesStep(s: string, i: nat)
    requires i < |s|
    ensures EntryAt(s, i) ==> var w := WordEnd(s, i + 1);
              i + 1 < w < |s| && Entries(s, i) == [(s[i], s[i + 1..w])] + Entries(s, w + 1)
    ensures !EntryAt(s, i) ==> Entries(s, i) == Entries(s, i + 1)
  {
    hide IsWord, IsQuote, WordEnd;
  }

  lemma {:induction false} WordEndPrefix(a: string, t: string, i: nat)
    requires i <= |a| && (t == "" || !IsWord(t[0]))
    ensures WordEnd(a + t, i) == WordEnd(a, i)
    decreases |a| - i
  {
    if i < |a| && IsWord(a[i]) {
      WordEndPrefix(a, t, i + 1);
    }
  }

  lemma EntryPrefix(a: string, t: string, i: nat)
    requires i < |a| && (t == "" || (!IsWord(t[0]) && !IsQuote(t[0])))
    ensures WordEnd(a + t, i + 1) == WordEnd(a, i + 1)
    ensures EntryAt(a + t, i) == EntryAt(a, i)
    ensures EntryAt(a, i) ==>
              var w := WordEnd(a, i + 1); i + 1 < w < |a| && (a + t)[i + 1..w] == a[i + 1..w]
  {
    hide IsWord, IsQuote, WordEnd;
    WordEndPrefix(a, t, i + 1);
    var w := WordEnd(a, i + 1);
    if w < |a| {
      assert (a + t)[i + 1..w] == a[i + 1..w];
    }
  }

  /** Text that starts with neither a word character nor a quote joins no entry to its left. */
  lemma {:induction false} EntriesSplit(a: string, t: string, i: nat)
    requires i <= |a| && (t == "" || (!IsWord(t[0]) && !IsQuote(t[0])))
    ensures Entries(a + t, i) == Entries(a, i) + Entries(a + t, |a|)
    decreases |a| - i
  {
    hide EntryAt, WordEnd, IsWord, IsQuote;
    if i == |a| {
      assert Entries(a, i) == [];
    } else {
      EntryPrefix(a, t, i);
      EntriesStep(a, i);
      EntriesStep(a + t, i);
      hide Entries;
      var w := WordEnd(a, i + 1);
      if EntryAt(a, i) {
        EntriesSplit(a, t, w + 1);
      } else {
        EntriesSplit(a, t, i + 1);
      }
    }
  }

  lemma {:induction false} WordEndShift(a: string, t: string, i: nat)
    requires i <= |t|
    ensures WordEnd(a + t, |a| + i) == |a| + WordEnd(t, i)
    decreases |t| - i
  {
    hide IsWord;
    if i < |t| && IsWord(t[i]) {
      WordEndShift(a, t, i + 1);
    }
  }

  lemma EntryShift(a: string, t: string, i: nat)
    requires i < |t|
    ensures WordEnd(a + t, |a| + i + 1) == |a| + WordEnd(t, i + 1)
    ensures EntryAt(a + t, |a| + i) == EntryAt(t, i)
    ensures EntryAt(t, i) ==>
              var w := WordEnd(t, i + 1); i + 1 < w < |t| && (a + t)[|a| + i + 1..|a| + w] == t[i + 1..w]
  {
    hide IsWord, IsQuote, WordEnd;
    WordEndShift(a, t, i + 1);
    var w := WordEnd(t, i + 1);
    if w < |t| {
      assert (a + t)[|a| + i + 1..|a| + w] == t[i + 1..w];
    }
  }

  lemma {:induction false} EntriesShift(a: string, t: string, i: nat)
    requires i <= |t|
    ensures Entries(a + t, |a| + i) == Entries(t, i)
    decreases |t| - i
  {
    hide EntryAt, WordEnd, IsWord, IsQuote;
    if i < |t| {
      EntryShift(a, t, i);
      EntriesStep(t, i);
      EntriesStep(a + t, |a| + i);
      hide Entries;
      var w := WordEnd(t, i + 1);
      if EntryAt(t, i) {
        EntriesShift(a, t, w + 1);
      } else {
        EntriesShift(a, t, i + 1);
      }
    }
  }

  lemma {:induction false} NoQuotesNoEntries(s: string, i: nat)
    requires i <= |s| && forall k | i <= k < |s| :: !IsQuote(s[k])
    ensures Entries(s, i) == []
    decreases |s| - i
  {
    if i < |s| {
      NoQuotesNoEntries(s, i + 1);
    }
  }

  lemma SpacesAreNeither(c: char)
    requires IsSpace(c) || c == ','
    ensures !IsWord(c) && !IsQuote(c)
  {
  }

  lemma StripKeepsEntries(body: string)
    ensures Entries(StripRight(body), 0) == Entries(body, 0)
  {
    hide IsSpace, IsWord, IsQuote;
    var b := StripRight(body);
    var tail := StripRightSplits(body);
    forall k | 0 <= k < |tail|
      ensures !IsWord(tail[k]) && !IsQuote(tail[k])
    {
      SpacesAreNeither(tail[k]);
    }
    EntriesSplit(b, tail, 0);
    EntriesShift(b, tail, 0);
    NoQuotesNoEntries(tail, 0);
  }

  /** A quoted word is one entry. */
  lemma WordIsOneEntry(q: char, word: string)
    requires IsQuote(q) && word != "" && forall c | c in word :: IsWord(c)
    ensures Entries([q] + word + [q], 0) == [(q, word)]
  {
    var s, n := [q] + word + [q], |word|;
    forall k | 1 <= k < n + 1
      ensures IsWord(s[k])
    {
      assert s[k] == word[k - 1] && word[k - 1] in word;
    }
    assert |s| == n + 2 && s[n + 1] == q && !IsWord(q);
    var w := WordEnd(s, 1);
    assert w == n + 1;
    assert s[1..n + 1] == word;
    hide IsWord, IsQuote, WordEnd;
    assert Entries(s, n + 2) == [];
  }

  lemma MarkerIsOneEntry(q: char)
    requires IsQuote(q)
    ensures Entries([q] + MARKER + [q], 0) == [(q, MARKER)]
  {
    WordIsOneEntry(q, MARKER);
  }

  /** Every entry is kept, in order, and WEKAFS comes last. */
  lemma PatchAppendsOneEntry(body: string)
    ensures Entries(NewBody(body), 0) == Entries(body, 0) + [(Quote(body), MARKER)]
  {
    hide IsSpace, IsWord, IsQuote, Separator, Quote;
    var b, sep, add := StripRight(body), Separator(StripRight(body)), Addition(body);
    StripKeepsEntries(body);
    SeparatorShape(b);
    forall k | 0 <= k < |sep|
      ensures !IsWord(sep[k]) && !IsQuote(sep[k])
    {
      SpacesAreNeither(sep[k]);
    }
    var t := sep + add;
    assert t[0] == sep[0];
    EntriesSplit(b, t, 0);
    EntriesShift(b, t, 0);
    SkipNonQuotes(sep, add, 0);
    EntriesShift(sep, add, 0);
    QuoteIsQuote(body);
    MarkerIsOneEntry(Quote(body));
  }

  lemma SeparatorShape(b: string)
    ensures var sep := Separator(b); sep != "" && sep[0] == ',' && forall k | 1 <= k < |sep| :: IsSpace(sep[k])
  {
  }

  lemma QuoteIsQuote(body: string)
    ensures IsQuote(Quote(body))
  {
  }

  lemma {:induction false} SkipNonQuotes(a: string, t: string, i: nat)
    requires i <= |a| && forall k | 0 <= k < |a| :: !IsQuote(a[k])
    ensures Entries(a + t, i) == Entries(a + t, |a|)
    decreases |a| - i
  {
    if i < |a| {
      SkipNonQuotes(a, t, i + 1);
    }
  }

  // ---- what the body, the marker and the new text are ----

  /** A comma, if there is one, and white space. */
  predicate Trailer(t: string)
  {
    Blank(t) || (t != "" && t[0] == ',' && Blank(t[1..]))
  }

  /** The body is the shortest prefix that leaves no more than that, and has all the entries. */
  lemma BodyExactly(inner: string)
    ensures |Body(inner)| <= |inner| && Body(inner) == inner[..|Body(inner)|] && Trailer(inner[|Body(inner)|..])
    ensures forall n | 0 <= n < |Body(inner)| :: !Trailer(inner[n..])
    ensures Entries(Body(inner), 0) == Entries(inner, 0)
  {
    var tail := StripRightSplits(inner);
    var t, b := StripRight(inner), Body(inner);
    var cut := if |b| < |t| then "," else "";
    SpacesAre(',');
    hide IsSpace, StripRight, Entries;
    assert t == b + cut && inner == b + (cut + tail) && inner[|b|..] == cut + tail;
    assert cut == "," ==> (cut + tail)[1..] == tail;
    forall n | 0 <= n < |b|
      ensures !Trailer(inner[n..])
    {
      var u := inner[n..];
      assert u[|t| - 1 - n] == t[|t| - 1] && !IsSpace(t[|t| - 1]);
      if cut == "" {
        assert u[|t| - 1 - n] in u && (|t| - 1 - n > 0 ==> u[1..][|t| - 2 - n] == t[|t| - 1]);
      } else {
        assert u[1..][|t| - 2 - n] == ',';
        assert ',' in u && ',' in u[1..];
      }
    }
    TrailerHasNoEntries(b, cut + tail);
  }

  lemma TrailerHasNoEntries(b: string, t: string)
    requires forall c | c in t :: IsSpace(c) || c == ','
    ensures Entries(b + t, 0) == Entries(b, 0)
  {
    hide IsSpace, IsWord, IsQuote;
    forall k | 0 <= k < |t|
      ensures !IsWord(t[k]) && !IsQuote(t[k])
    {
      assert t[k] in t;
      SpacesAreNeither(t[k]);
    }
    EntriesSplit(b, t, 0);
    EntriesShift(b, t, 0);
    NoQuotesNoEntries(t, 0);
  }

  /** The marker is WEKAFS between quotes, which every entry of that name is. */
  lemma HasMarkerExactly(s: string)
    ensures HasMarker(s) <==> exists a: string, q: char, r: char, b: string ::
              s == a + [q] + "WEKAFS" + [r] + b && q in {'\'', '"'} && r in {'\'', '"'}
    ensures (exists q :: (q, "WEKAFS") in Entries(s, 0)) ==> HasMarker(s)
  {
    hide Entries;
    if i: nat :| i < |s| && QuotedMarkerAt(s, i) {
      assert s == s[..i] + [s[i]] + "WEKAFS" + [s[i + 7]] + s[i + 8..];
    }
    if a: string, q: char, r: char, b: string :| s == a + [q] + "WEKAFS" + [r] + b && q in {'\'', '"'} && r in {'\'', '"'} {
      MarkerBetween(a, q, r, b);
    }
    if q :| (q, "WEKAFS") in Entries(s, 0) {
      MarkerEntry(s, q);
    }
  }

  lemma MarkerBetween(a: string, q: char, r: char, b: string)
    requires IsQuote(q) && IsQuote(r)
    ensures HasMarker(a + [q] + "WEKAFS" + [r] + b)
  {
    var s := a + [q] + "WEKAFS" + [r] + b;
    assert s[|a|] == q && s[|a| + 1..|a| + 7] == "WEKAFS" && s[|a| + 7] == r;
    assert QuotedMarkerAt(s, |a|);
  }

  lemma MarkerEntry(s: string, q: char)
    requires (q, "WEKAFS") in Entries(s, 0)
    ensures HasMarker(s)
  {
    EntryIsQuoted(s, 0, q, "WEKAFS");
    var j: nat :| j + 7 < |s| && s[j] == q && s[j + 1..j + 7] == "WEKAFS" && s[j + 7] == q;
    assert QuotedMarkerAt(s, j);
  }

  /** Every entry stands in the text between its quotes. */
  lemma {:induction false} EntryIsQuoted(s: string, i: nat, q: char, word: string)
    requires i <= |s| && (q, word) in Entries(s, i)
    ensures IsQuote(q) && exists j: nat :: i <= j && j + |word| + 1 < |s| && s[j] == q && s[j + 1..j + 1 + |word|] == word && s[j + 1 + |word|] == q
    decreases |s| - i
  {
    EntriesStep(s, i);
    if EntryAt(s, i) {
      var w := WordEnd(s, i + 1);
      if (q, word) == (s[i], s[i + 1..w]) {
        assert s[i] == q && s[i + 1..i + 1 + |word|] == word && s[i + 1 + |word|] == q;
      } else {
        EntryIsQuoted(s, w + 1, q, word);
      }
    } else {
      EntryIsQuoted(s, i + 1, q, word);
    }
  }

  lemma NoQuotesTrail(t: string)
    requires Trailer(t)
    ensures forall k | 0 <= k < |t| :: !IsQuote(t[k])
  {
    SpacesAre('\'');
    SpacesAre('"');
    hide IsSpace;
    forall k | 0 <= k < |t|
      ensures !IsQuote(t[k])
    {
      assert t[k] in t && (k > 0 ==> t[1..][k - 1] == t[k]);
    }
  }

  /** Cutting the trailer hides no marker. */
  lemma MarkerInBody(inner: string)
    ensures HasMarker(Body(inner)) <==> HasMarker(inner)
  {
    BodyExactly(inner);
    var b := Body(inner);
    var t := inner[|b|..];
    NoQuotesTrail(t);
    hide Body, Trailer, Entries;
    assert inner == b + t;
    MarkerBefore(b, t);
  }

  lemma MarkerBefore(b: string, t: string)
    requires forall k | 0 <= k < |t| :: !IsQuote(t[k])
    ensures HasMarker(b) <==> HasMarker(b + t)
  {
    if i: nat :| i < |b + t| && QuotedMarkerAt(b + t, i) {
      MarkerPrefix(b, t, i);
      assert QuotedMarkerAt(b, i);
    }
    if i: nat :| i < |b| && QuotedMarkerAt(b, i) {
      MarkerPrefix(b, t, i);
      assert QuotedMarkerAt(b + t, i);
    }
  }

  lemma MarkerPrefix(b: string, t: string, i: nat)
    requires i < |b + t| && forall k | 0 <= k < |t| :: !IsQuote(t[k])
    ensures QuotedMarkerAt(b + t, i) <==> i < |b| && QuotedMarkerAt(b, i)
  {
    var last := i + 7;
    if last < |b| {
      assert (b + t)[i + 1..last] == b[i + 1..last];
    } else if last < |b + t| {
      assert (b + t)[last] == t[last - |b|];
    }
  }

  /** What is put behind the old text: a comma and, if the last line would get longer than 79
      with the new entry, a new line indented like it; and WEKAFS in the quotes of the last entry. */
  lemma NewBodyExactly(body: string, last: string, indent: string)
    requires StripRight(body) == last || exists above: string :: StripRight(body) == above + ['\n'] + last
    requires '\n' !in last && Blank(indent)
    requires last == indent || exists c: char, rest: string :: last == indent + [c] + rest && !IsSpace(c)
    ensures var es := Entries(body, 0);
      var q := if es == [] then '\'' else es[|es| - 1].0;
      NewBody(body) == StripRight(body) +
        (if |last| + 11 > 79 then ",\n" + (if indent == "" then "    " else indent) else ", ") + [q] + "WEKAFS" + [q]
  {
    var b := StripRight(body);
    SeparatorIs(b, last, indent);
    LastQuote(body);
    hide StripRight, Entries, LastLine, Indent, Separator, Quote;
  }

  lemma SeparatorIs(b: string, last: string, indent: string)
    requires b == last || exists above: string :: b == above + ['\n'] + last
    requires '\n' !in last && Blank(indent)
    requires last == indent || exists c: char, rest: string :: last == indent + [c] + rest && !IsSpace(c)
    ensures Separator(b) == if |last| + 11 > 79 then ",\n" + (if indent == "" then "    " else indent) else ", "
  {
    LastLineIs(b, last);
    IndentIs(last, indent);
    hide LastLine, Indent;
  }

  lemma LastQuote(body: string)
    ensures var es := Entries(body, 0); Quote(body) == if es == [] then '\'' else es[|es| - 1].0
  {
    var es := Entries(body, 0);
    if es != [] {
      assert es[|es| - 1] in es;
      EntryIsQuoted(body, 0, es[|es| - 1].0, es[|es| - 1].1);
    }
    hide Entries;
  }

  lemma {:induction false} LastLineIs(s: string, last: string)
    requires '\n' !in last && (s == last || exists above: string :: s == above + ['\n'] + last)
    ensures LastLine(s) == last
  {
    if last != "" {
      var n := |s| - 1;
      assert s[n] == last[|last| - 1];
      if above: string :| s == above + ['\n'] + last {
        assert s[..n] == above + ['\n'] + last[..|last| - 1];
      }
      LastLineIs(s[..n], last[..|last| - 1]);
    } else if above: string :| s == above + ['\n'] + last {
      assert s[|s| - 1] == '\n';
    }
  }

  lemma IndentIs(line: string, indent: string)
    requires Blank(indent)
    requires line == indent || exists c: char, rest: string :: line == indent + [c] + rest && !IsSpace(c)
    ensures Indent(line) == indent
  {
    hide IsSpace;
    var r := SkipSpace(line, 0);
    assert forall k | 0 <= k < |indent| :: line[k] == indent[k] && indent[k] in indent;
    if c: char, rest: string :| line == indent + [c] + rest && !IsSpace(c) {
      assert line[|indent|] == c;
    }
    assert line[..r] == indent;
  }

  /** A head, in full. */
  lemma HeadExactly(s: string, p: nat, q: nat)
    requires p <= q <= |s|
    ensures HeadEnd(s, p) == Some(q) <==>
            exists a: string, b: string :: Blank(a) && Blank(b) && s[p..q] == "SUPPORTED_SHARE_PROTOCOLS" + a + "=" + b + "("
  {
    hide IsSpace, HeadEnd;
    if HeadEnd(s, p) == Some(q) {
      var a, b := HeadParts(s, p, q);
    }
    if a: string, b: string :| Blank(a) && Blank(b) && s[p..q] == NAME + a + "=" + b + "(" {
      HeadFound(s, p, q, a, b);
    }
  }

  lemma HeadParts(s: string, p: nat, q: nat) returns (a: string, b: string)
    requires p <= q <= |s| && HeadEnd(s, p) == Some(q)
    ensures Blank(a) && Blank(b) && s[p..q] == NAME + a + "=" + b + "("
  {
    HeadEndIsHead(s, p, q);
    hide IsSpace, HeadEnd;
    var eq: nat :| IsHead(s, p, eq, q);
    var n := p + |NAME|;
    a, b := s[n..eq], s[eq + 1..q - 1];
    assert s[p..n] == NAME && s[eq..eq + 1] == "=" && s[q - 1..q] == "(";
    hide IsHead, Blank;
    Cut(s, p, q - 1, q);
    Cut(s, p, eq + 1, q - 1);
    Cut(s, p, eq, eq + 1);
    Cut(s, p, n, eq);
  }

  lemma Cut(s: string, i: nat, j: nat, k: nat)
    requires i <= j <= k <= |s|
    ensures s[i..k] == s[i..j] + s[j..k]
  {
  }

  lemma HeadFound(s: string, p: nat, q: nat, a: string, b: string)
    requires p <= q <= |s| && Blank(a) && Blank(b) && s[p..q] == NAME + a + "=" + b + "("
    ensures HeadEnd(s, p) == Some(q)
  {
    hide IsSpace, HeadEnd;
    var n, eq, t := |NAME|, p + |NAME| + |a|, s[p..q];
    assert forall k | p <= k < q :: s[k] == t[k - p];
    assert s[p..p + n] == t[..n] == NAME;
    assert q == eq + 1 + |b| + 1;
    forall k | p + n <= k < eq
      ensures IsSpace(s[k])
    {
      assert s[k] == a[k - p - n] && a[k - p - n] in a;
    }
    forall k | eq < k < q - 1
      ensures IsSpace(s[k])
    {
      assert s[k] == b[k - eq - 1] && b[k - eq - 1] in b;
    }
    assert IsHead(s, p, eq, q);
    IsHeadHeadEnd(s, p, eq, q);
  }

  // ---- a second run finds the same tuple and writes nothing ----

  /** The head from p to q, as a property of that stretch of text alone. */
  ghost predicate IsHead(s: string, p: nat, eq: nat, q: nat)
  {
    && At(s, p, NAME) && p + |NAME| <= eq < q - 1 && q <= |s|
    && s[eq] == '=' && s[q - 1] == '('
    && (forall k | p + |NAME| <= k < eq :: IsSpace(s[k]))
    && (forall k | eq < k < q - 1 :: IsSpace(s[k]))
  }

  lemma HeadEndIsHead(s: string, p: nat, q: nat)
    requires HeadEnd(s, p) == Some(q)
    ensures exists eq :: IsHead(s, p, eq, q)
  {
    hide IsSpace;
    var j := SkipSpace(s, p + |NAME|);
    assert IsHead(s, p, j, q);
  }

  lemma IsHeadHeadEnd(s: string, p: nat, eq: nat, q: nat)
    requires IsHead(s, p, eq, q)
    ensures HeadEnd(s, p) == Some(q)
  {
    assert !IsSpace('=') && !IsSpace('(');
    hide IsSpace;
    assert SkipSpace(s, p + |NAME|) == eq;
    assert SkipSpace(s, eq + 1) == q - 1;
  }

  /** A head carries its one opening parenthesis at its end. */
  lemma HeadInterior(s: string, p: nat, eq: nat, q: nat, k: nat)
    requires IsHead(s, p, eq, q) && p <= k < q - 1
    ensures s[k] != '('
  {
    if k < p + |NAME| {
      assert s[k] == NAME[k - p];
      assert '(' !in NAME;
    }
  }

  lemma HeadTransfers(s: string, t: string, p: nat, eq: nat, q: nat)
    requires IsHead(s, p, eq, q) && q <= |t| && t[..q] == s[..q]
    ensures IsHead(t, p, eq, q)
  {
    hide IsSpace;
    forall k | 0 <= k < q
      ensures t[k] == s[k]
    {
      assert t[..q][k] == s[..q][k];
    }
    assert t[p..p + |NAME|] == s[p..p + |NAME|];
  }

  ghost predicate NoneBefore(s: string, n: nat)
  {
    forall p: nat | p < n :: MatchAt(s, p).None?
  }

  /** The leftmost match is the first position with one. */
  lemma LeftmostMatch(t: string, m: Match)
    requires NoneBefore(t, m.start) && HeadEnd(t, m.start) == Some(m.open) && Close(t, m.open) == Some(m.close)
    ensures Search(t, 0) == Some(m)
  {
    assert MatchAt(t, m.start) == Some(m);
    hide MatchAt;
  }

  lemma MatchFound(s: string, m: Match)
    requires Search(s, 0) == Some(m)
    ensures m.start < m.open <= m.close < |s| && s[m.close] == ')' && ')' !in s[m.open..m.close]
    ensures NoneBefore(s, m.start) && HeadEnd(s, m.start) == Some(m.open) && Close(s, m.open) == Some(m.close)
  {
    hide HeadEnd, Close;
  }

  lemma HeadSurvives(s: string, t: string, p: nat, q: nat)
    requires HeadEnd(s, p) == Some(q) && q <= |t| && t[..q] == s[..q]
    ensures HeadEnd(t, p) == Some(q)
  {
    HeadEndIsHead(s, p, q);
    hide HeadEnd, IsHead;
    var eq :| IsHead(s, p, eq, q);
    HeadTransfers(s, t, p, eq, q);
    IsHeadHeadEnd(t, p, eq, q);
  }

  lemma FirstClose(t: string, i: nat, c: nat)
    requires i <= c < |t| && t[c] == ')' && forall k | i <= k < c :: t[k] != ')'
    ensures Close(t, i) == Some(c)
  {
    hide Close;
  }

  lemma NewClose(front: string, inner: string, back: string)
    requires ')' !in inner && back != "" && back[0] == ')'
    ensures Close(front + inner + back, |front|) == Some(|front| + |inner|)
  {
    var t := front + inner + back;
    var c := |front| + |inner|;
    assert t[c] == back[0];
    forall k | |front| <= k < c
      ensures t[k] != ')'
    {
      assert t[k] == inner[k - |front|];
    }
    FirstClose(t, |front|, c);
  }

  lemma FrontOf(front: string, inner: string, back: string)
    ensures (front + inner + back)[..|front|] == front
  {
  }

  /** The match stays where it was when the text up to its opening parenthesis does. */
  lemma SameMatch(s: string, m: Match, t: string, c: nat)
    requires Search(s, 0) == Some(m)
    requires m.open <= |t| && m.open <= |s| && t[..m.open] == s[..m.open] && Close(t, m.open) == Some(c)
    ensures Search(t, 0) == Some(Match(m.start, m.open, c))
  {
    hide *;
    MatchFound(s, m);
    HeadSurvives(s, t, m.start, m.open);
    NoEarlierMatch(s, t, m.start, m.open);
    LeftmostMatch(t, Match(m.start, m.open, c));
  }

  lemma SameMatchAfter(s: string, m: Match, inner: string)
    requires Search(s, 0) == Some(m) && ')' !in inner
    ensures m.open <= m.close < |s|
    ensures Search(Rewritten(s, m, inner), 0) == Some(Match(m.start, m.open, m.open + |inner|))
  {
    hide *;
    MatchFound(s, m);
    RewrittenParts(s, m, inner);
    SameMatch(s, m, Rewritten(s, m, inner), m.open + |inner|);
  }

  lemma RewrittenParts(s: string, m: Match, inner: string)
    requires m.open <= m.close < |s| && s[m.close] == ')' && ')' !in inner
    ensures var t := Rewritten(s, m, inner);
      && m.open + |inner| <= |t| && t[..m.open] == s[..m.open] && t[m.open..m.open + |inner|] == inner
      && Close(t, m.open) == Some(m.open + |inner|)
  {
    hide Close;
    FrontOf(s[..m.open], inner, s[m.close..]);
    NewClose(s[..m.open], inner, s[m.close..]);
  }

  /** A head that starts earlier ends no later than one that ends at q, as q - 1 holds a parenthesis. */
  lemma EarlierHeadEndsEarlier(t: string, p: nat, e: nat, q: nat)
    requires HeadEnd(t, p) == Some(e) && p < q <= |t| && t[q - 1] == '('
    ensures e <= q
  {
    HeadEndIsHead(t, p, e);
    hide HeadEnd, IsHead;
    var eq :| IsHead(t, p, eq, e);
    if e > q {
      HeadInterior(t, p, eq, e, q - 1);
    }
  }

  lemma NoEarlierMatch(s: string, t: string, start: nat, q: nat)
    requires NoneBefore(s, start) && HeadEnd(s, start) == Some(q) && Close(s, q).Some?
    requires q <= |t| && t[..q] == s[..q]
    ensures NoneBefore(t, start)
  {
    HeadEndIsHead(s, start, q);
    assert s[q - 1] == '(' && start < q;
    hide HeadEnd, IsHead;
    assert t[q - 1] == t[..q][q - 1] == s[..q][q - 1];
    forall p: nat | p < start
      ensures MatchAt(t, p).None?
    {
      if HeadEnd(t, p).Some? {
        EarlierHeadEndsEarlier(t, p, HeadEnd(t, p).value, q);
        HeadComesBack(s, t, p, q);
      }
    }
  }

  lemma HeadComesBack(s: string, t: string, p: nat, q: nat)
    requires q <= |t| && q <= |s| && t[..q] == s[..q] && Close(s, q).Some?
    requires HeadEnd(t, p).Some? && HeadEnd(t, p).value <= q
    ensures MatchAt(s, p).Some?
  {
    hide HeadEnd;
    var e := HeadEnd(t, p).value;
    assert t[..e] == t[..q][..e] == s[..q][..e] == s[..e];
    HeadSurvives(t, s, p, e);
    assert Close(s, e).Some?;
  }

  lemma BodyOfNewBody(body: string)
    ensures Body(NewBody(body)) == NewBody(body)
    ensures HasMarker(NewBody(body))
  {
    var n, q := NewBody(body), Quote(body);
    QuoteIsQuote(body);
    hide StripRight, Separator, Quote;
    var front := StripRight(body) + Separator(StripRight(body));
    assert n == front + Addition(body);
    assert n[|n| - 1] == q;
    StripEndsSolid(n);
    var i := |front|;
    assert n[i] == q && n[i + 1..i + 1 + |MARKER|] == MARKER && n[i + 1 + |MARKER|] == q;
    assert QuotedMarkerAt(n, i);
  }

  lemma StripEndsSolid(n: string)
    requires n != "" && !IsSpace(n[|n| - 1])
    ensures StripRight(n) == n
  {
  }

  lemma NewBodyCloses(body: string)
    requires ')' !in body
    ensures ')' !in NewBody(body)
  {
    var tail := StripRightSplits(body);
    var b := StripRight(body);
    assert forall c | c in b :: c in body;
    SeparatorShape(b);
    QuoteIsQuote(body);
    hide StripRight, Separator, Quote;
    var sep := Separator(b);
    assert ')' !in sep by {
      assert !IsSpace(')');
    }
    assert ')' !in Addition(body);
  }

  /** There is no tuple where no head is followed by a closing parenthesis. */
  lemma NoTuple(s: string)
    ensures Patch(s).None? <==> forall p: nat, q: nat | q <= |s| && HeadEnd(s, p) == Some(q) :: ')' !in s[q..]
  {
    hide HeadEnd, NewBody, Body, HasMarker;
    match Search(s, 0)
    case None =>
      forall p: nat, q: nat | q <= |s| && HeadEnd(s, p) == Some(q)
        ensures ')' !in s[q..]
      {
        HeadStarts(s, p);
        assert MatchAt(s, p).None?;
      }
    case Some(m) =>
      assert s[m.open..][m.close - m.open] == ')';
  }

  lemma HeadStarts(s: string, p: nat)
    ensures HeadEnd(s, p).Some? ==> p <= |s|
  {
  }

  /** Patching leaves all text outside the tuple alone, keeps its entries and appends WEKAFS,
      or changes nothing when it is there; patching again changes nothing. It fails only
      where there is no tuple. */
  lemma PatchConverges(s: string)
    ensures Patch(s).None? <==> Search(s, 0).None?
    ensures Patch(s).Some? ==>
      var s' := Patch(s).value;
      var m := Search(s, 0).value;
      var inner := s[m.open..m.close];
      var body := Body(inner);
      && (HasMarker(inner) ==> s' == s)
      && (!HasMarker(inner) ==>
            && s' == s[..m.open] + NewBody(body) + s[m.close..]
            && Search(s', 0) == Some(Match(m.start, m.open, m.open + |NewBody(body)|))
            && Entries(NewBody(body), 0) == Entries(inner, 0) + [(Quote(body), "WEKAFS")])
      && Patch(s') == Some(s')
  {
    hide Search, MatchAt, NewBody, Body, HasMarker, Entries, Quote;
    if Search(s, 0).Some? {
      var m := Search(s, 0).value;
      MatchFound(s, m);
      MarkerInBody(s[m.open..m.close]);
      BodyExactly(s[m.open..m.close]);
      PatchGrows(s, m);
    }
  }

  lemma PatchGrows(s: string, m: Match)
    requires Search(s, 0) == Some(m)
    ensures m.open <= m.close < |s|
    ensures var body := Body(s[m.open..m.close]);
            var s' := Rewritten(s, m, NewBody(body));
      && Search(s', 0) == Some(Match(m.start, m.open, m.open + |NewBody(body)|))
      && Entries(NewBody(body), 0) == Entries(body, 0) + [(Quote(body), MARKER)]
      && Patch(s') == Some(s')
  {
    hide *;
    MatchFound(s, m);
    var body := Body(s[m.open..m.close]);
    BodyIsPrefix(s[m.open..m.close]);
    NewBodyCloses(body);
    RewrittenParts(s, m, NewBody(body));
    SameMatchAfter(s, m, NewBody(body));
    PatchAppendsOneEntry(body);
    BodyOfNewBody(body);
    NothingToAdd(Rewritten(s, m, NewBody(body)), Match(m.start, m.open, m.open + |NewBody(body)|), NewBody(body));
  }

  lemma NothingToAdd(s: string, m: Match, inner: string)
    requires Search(s, 0) == Some(m) && m.open <= m.close <= |s| && s[m.open..m.close] == inner
    ensures HasMarker(Body(inner)) ==> Patch(s) == Some(s)
  {
    hide Search, Body, HasMarker;
  }

  /** Whether the first thing in s that is not white space is a comma. */
  predicate LeadsWithComma(s: string)
  {
    SkipSpace(s, 0) < |s| && s[SkipSpace(s, 0)] == ','
  }

  /** The rewritten tuple opens with a bare comma, so is no longer Python, exactly when the old
      one had no entry to follow or opened with one already. */
  lemma BareCommaExactly(body: string)
    ensures LeadsWithComma(NewBody(body)) <==> Blank(body) || LeadsWithComma(body)
  {
    var tail := StripRightSplits(body);
    var b := StripRight(body);
    SeparatorShape(b);
    hide StripRight, Separator;
    var t := Separator(b) + Addition(body);
    assert !IsSpace(',');
    assert body == b + tail && NewBody(body) == b + t && t[0] == ',';
    if b == "" {
      assert Blank(body) && t == NewBody(body);
    } else {
      assert !IsSpace(b[|b| - 1]) && b[|b| - 1] in body;
      FirstSolid(b, t);
      FirstSolid(b, tail);
    }
  }

  lemma FirstSolid(b: string, t: string)
    requires b != "" && !IsSpace(b[|b| - 1])
    ensures SkipSpace(b + t, 0) == SkipSpace(b, 0) < |b|
  {
    hide IsSpace;
    var i, j := SkipSpace(b, 0), SkipSpace(b + t, 0);
    assert (b + t)[|b| - 1] == b[|b| - 1];
    assert i < |b| && (b + t)[i] == b[i];
    assert j < |b| && (b + t)[j] == b[j];
  }

  lemma BodyIsPrefix(inner: string)
    ensures forall c | c in Body(inner) :: c in inner
  {
    var tail := StripRightSplits(inner);
  }
}
