/** The closure ledger: one text record per incident, an index table that repeats each
    record's status, and the migration that prints a `### STATE` block into every record
    that lacks one, so that the parser reads the status back from the record. */
module ClosureLedger {
  import opened Lists
  import opened Text

  // ---------- status words ----------

  /** Looking up the word `constructor` among the synonyms finds what every object
      inherits, a function, instead of a word. */
  datatype Status = Word(text: string) | NativeFunction

  const UNKNOWN := Word("unknown")

  function LowerChar(c: char): char { if 'A' <= c <= 'Z' then c - 'A' + 'a' else c }

  /** ASCII case folding. */
  function Lower(s: string): (r: string)
    ensures |r| == |s| && forall i :: 0 <= i < |s| ==> r[i] == LowerChar(s[i])
  {
    seq(|s|, i requires 0 <= i < |s| => LowerChar(s[i]))
  }

  function TrimEnd(s: string): string {
    if s != [] && IsSpace(s[|s| - 1]) then TrimEnd(s[..|s| - 1]) else s
  }

  function Trim(s: string): string { TrimEnd(s[SkipSpace(s, 0)..]) }

  predicate IsMark(c: char) { c == '`' || c == '*' }

  function Unmark(s: string): string {
    if s == [] then [] else (if IsMark(s[0]) then [] else [s[0]]) + Unmark(s[1..])
  }

  predicate Separates(c: char) { IsSpace(c) || c == '\U{2014}' || c == '(' || c == ',' }

  /** The text before the first separator. */
  function FirstPiece(s: string): string {
    if s == [] || Separates(s[0]) then [] else [s[0]] + FirstPiece(s[1..])
  }

  function DashChar(c: char): char { if c == '_' then '-' else c }

  function Dashed(s: string): (r: string)
    ensures |r| == |s| && forall i :: 0 <= i < |s| ==> r[i] == DashChar(s[i])
  {
    seq(|s|, i requires 0 <= i < |s| => DashChar(s[i]))
  }

  predicate IsStop(c: char) { c == '.' || c == ':' }

  function StripStops(s: string): string {
    if s != [] && IsStop(s[|s| - 1]) then StripStops(s[..|s| - 1]) else s
  }

  function Token(raw: string): string { StripStops(Dashed(FirstPiece(Unmark(Lower(Trim(raw)))))) }

  function Lookup(token: string): Status {
    if token == "opened" || token == "reopened" then Word("open")
    else if token == "fixed" || token == "fix" then Word("fix-landed")
    else if token == "constructor" then NativeFunction
    else if token == "" then UNKNOWN
    else Word(token)
  }

  function NormalizeStatus(raw: string): Status { if raw == "" then UNKNOWN else Lookup(Token(raw)) }

  // ---------- normalizing twice ----------

  ghost predicate PlainChar(c: char) {
    !('A' <= c <= 'Z') && !IsMark(c) && !Separates(c) && c != '_'
  }

  /** What normalizing leaves alone. */
  ghost predicate Plain(s: string) {
    && (forall i :: 0 <= i < |s| ==> PlainChar(s[i]))
    && (s != [] ==> !IsStop(s[|s| - 1]))
  }

  lemma {:induction false} UnmarkMeaning(s: string)
    ensures forall c :: c in Unmark(s) ==> c in s && !IsMark(c)
  {
    if s != [] {
      UnmarkMeaning(s[1..]);
    }
  }

  lemma {:induction false} UnmarkIdle(s: string)
    requires forall i :: 0 <= i < |s| ==> !IsMark(s[i])
    ensures Unmark(s) == s
  {
    if s != [] {
      UnmarkIdle(s[1..]);
    }
  }

  lemma {:induction false} UnmarkStep(x: char, t: string)
    ensures Unmark([x] + t) == if IsMark(x) then Unmark(t) else [x] + Unmark(t)
  {
    assert ([x] + t)[1..] == t;
  }

  lemma {:induction false} UnmarkEnd(s: string)
    requires forall i :: 0 <= i < |s| ==> !IsMark(s[i])
    ensures Unmark(s + "`") == s
  {
    if s == [] {
      assert s + "`" == ['`'] + [];
      UnmarkStep('`', []);
    } else {
      hide Unmark;
      UnmarkEnd(s[1..]);
      UnmarkStep(s[0], s[1..] + "`");
      assert s + "`" == [s[0]] + (s[1..] + "`");
      assert s == [s[0]] + s[1..];
    }
  }

  lemma {:induction false} FirstPieceMeaning(s: string)
    ensures forall c :: c in FirstPiece(s) ==> c in s && !Separates(c)
  {
    if s != [] {
      FirstPieceMeaning(s[1..]);
    }
  }

  lemma {:induction false} FirstPieceWhole(s: string)
    requires forall i :: 0 <= i < |s| ==> !Separates(s[i])
    ensures FirstPiece(s) == s
  {
    if s != [] {
      FirstPieceWhole(s[1..]);
    }
  }

  /** A piece that ends at a separator is the first piece. */
  lemma {:induction false} FirstPieceEnds(s: string, c: char, t: string)
    requires Separates(c) && forall i :: 0 <= i < |s| ==> !Separates(s[i])
    ensures FirstPiece(s + [c] + t) == s
  {
    if s == [] {
      assert s + [c] + t == [c] + t;
    } else {
      FirstPieceEnds(s[1..], c, t);
      assert (s + [c] + t)[1..] == s[1..] + [c] + t;
    }
  }

  lemma {:induction false} StripStopsMeaning(s: string)
    ensures forall c :: c in StripStops(s) ==> c in s
    ensures StripStops(s) != [] ==> !IsStop(StripStops(s)[|StripStops(s)| - 1])
  {
    if s != [] && IsStop(s[|s| - 1]) {
      StripStopsMeaning(s[..|s| - 1]);
    }
  }

  lemma {:induction false} TokenIsPlain(raw: string)
    ensures Plain(Token(raw))
  {
    hide IsSpace, Trim;
    var low := Lower(Trim(raw));
    var bare := Unmark(low);
    var piece := FirstPiece(bare);
    UnmarkMeaning(low);
    FirstPieceMeaning(bare);
    StripStopsMeaning(Dashed(piece));
    NoSpace();
    assert forall c :: c in low ==> !('A' <= c <= 'Z');
    forall c | c in Dashed(piece) ensures PlainChar(c) {
      var i :| 0 <= i < |piece| && c == DashChar(piece[i]);
      assert piece[i] in piece;
    }
  }

  lemma {:induction false} TrimIdle(s: string)
    requires s == [] || (!IsSpace(s[0]) && !IsSpace(s[|s| - 1]))
    ensures Trim(s) == s
  {
    hide IsSpace;
    assert SkipSpace(s, 0) == 0;
    assert s[0..] == s;
  }

  /** Folding, cutting and stripping, without the trimming and the marks. */
  lemma {:induction false} PlainIdle(s: string)
    requires Plain(s)
    ensures Lower(s) == s && FirstPiece(s) == s && Dashed(s) == s && StripStops(s) == s
  {
    hide IsSpace;
    FirstPieceWhole(s);
  }

  lemma {:induction false} PlainToken(s: string)
    requires Plain(s)
    ensures Token(s) == s
  {
    hide IsSpace;
    assert s != [] ==> PlainChar(s[0]) && PlainChar(s[|s| - 1]);
    TrimIdle(s);
    PlainIdle(s);
    UnmarkIdle(s);
  }

  /** The words that normalizing yields. */
  ghost predicate Settled(w: string) {
    Plain(w) && w !in {"", "opened", "reopened", "fixed", "fix", "constructor"}
  }

  lemma {:induction false} NormalizedIsSettled(raw: string)
    ensures NormalizeStatus(raw).Word? ==> Settled(NormalizeStatus(raw).text)
  {
    hide IsSpace, Token;
    TokenIsPlain(raw);
    assert Plain("open") && Plain("fix-landed") && Plain("unknown") by {
      PlainWords();
    }
  }

  lemma {:induction false} PlainLetters(s: string)
    requires forall i :: 0 <= i < |s| ==> 'a' <= s[i] <= 'z' || s[i] == '-'
    ensures Plain(s)
  {
  }

  lemma {:induction false} PlainWords()
    ensures Plain("open") && Plain("fix-landed") && Plain("unknown") && Plain("function")
  {
    hide Plain;
    PlainLetters("open");
    PlainLetters("fix-landed");
    PlainLetters("unknown");
    PlainLetters("function");
  }

  // ---------- what a raw status comes to ----------

  lemma {:induction false} TrimEndMeaning(s: string)
    ensures TrimEnd(s) <= s && forall i :: |TrimEnd(s)| <= i < |s| ==> IsSpace(s[i])
    ensures TrimEnd(s) != [] ==> !IsSpace(TrimEnd(s)[|TrimEnd(s)| - 1])
  {
    hide IsSpace;
    if s != [] && IsSpace(s[|s| - 1]) {
      TrimEndMeaning(s[..|s| - 1]);
    }
  }

  ghost predicate Blank(s: string) { forall i :: 0 <= i < |s| ==> IsSpace(s[i]) }

  /** Only white space goes, and all of it at either end. */
  lemma {:induction false} TrimMeaning(s: string)
    ensures exists lead, trail :: s == lead + Trim(s) + trail && Blank(lead) && Blank(trail)
    ensures Trim(s) != [] ==> !IsSpace(Trim(s)[0]) && !IsSpace(Trim(s)[|Trim(s)| - 1])
  {
    hide IsSpace, TrimEnd;
    var i := SkipSpace(s, 0);
    var rest := s[i..];
    TrimEndMeaning(rest);
    var lead, trail := s[..i], rest[|TrimEnd(rest)|..];
    assert rest == TrimEnd(rest) + trail;
    assert s == lead + rest;
    assert s == lead + Trim(s) + trail;
    assert Blank(lead) && Blank(trail);
  }

  predicate Kept(c: char) { c != '`' && c != '*' }

  function Folded(c: char): char {
    if 'A' <= c <= 'Z' then c - 'A' + 'a' else if c == '_' then '-' else c
  }

  ghost predicate Cuts(c: char) { IsSpace(c) || c in "\U{2014}(," }

  /** Without backticks and asterisks the text starts with a piece up to the first white
      space, long dash, parenthesis or comma. */
  ghost predicate ReadsPiece(core: string, piece: string, rest: string) {
    && piece + rest == Filter(Kept, core)
    && (forall i :: 0 <= i < |piece| ==> !Cuts(piece[i]))
    && (rest != [] ==> Cuts(rest[0]))
  }

  /** The piece, folded, is the token and then nothing but full stops and colons. */
  ghost predicate ReadsToken(piece: string, token: string, stops: string) {
    && |token + stops| == |piece|
    && (forall i :: 0 <= i < |piece| ==> (token + stops)[i] == Folded(piece[i]))
    && (forall i :: 0 <= i < |stops| ==> stops[i] in ".:")
    && (token != [] ==> token[|token| - 1] !in ".:")
  }

  lemma {:induction false} UnmarkConcat(s: string, t: string)
    ensures Unmark(s + t) == Unmark(s) + Unmark(t)
  {
    hide Unmark, IsMark;
    if s == [] {
      UnmarkIdle([]);
      assert s + t == t && [] + Unmark(t) == Unmark(t);
    } else {
      var x, rest := s[0], s[1..];
      UnmarkConcat(rest, t);
      UnmarkStep(x, rest + t);
      UnmarkStep(x, rest);
      assert s == [x] + rest;
      assert s + t == [x] + (rest + t);
      assert [x] + (Unmark(rest) + Unmark(t)) == [x] + Unmark(rest) + Unmark(t);
    }
  }

  lemma {:induction false} LowerKeepsMarks(c: char)
    ensures IsMark(LowerChar(c)) <==> !Kept(c)
    ensures Separates(LowerChar(c)) <==> Cuts(c)
    ensures DashChar(LowerChar(c)) == Folded(c)
    ensures IsStop(c) <==> c in ".:"
  {
  }

  lemma {:induction false} UnmarkedLower(s: string)
    ensures Unmark(Lower(s)) == Lower(Filter(Kept, s))
  {
    if s == [] {
    } else {
      hide Unmark, Kept, LowerChar;
      var init, c := s[..|s| - 1], s[|s| - 1];
      UnmarkedLower(init);
      UnmarkConcat(Lower(init), [LowerChar(c)]);
      assert Lower(s) == Lower(init) + [LowerChar(c)];
      UnmarkStep(LowerChar(c), []);
      assert [LowerChar(c)] == [LowerChar(c)] + [];
      UnmarkIdle([]);
      LowerKeepsMarks(c);
      if !Kept(c) {
        FilterSkips(Kept, s);
      }
      assert Lower(Filter(Kept, init) + [c]) == Lower(Filter(Kept, init)) + [LowerChar(c)];
    }
  }

  lemma {:induction false} FirstPieceStops(s: string)
    ensures FirstPiece(s) <= s && forall i :: 0 <= i < |FirstPiece(s)| ==> !Separates(s[i])
    ensures |FirstPiece(s)| < |s| ==> Separates(s[|FirstPiece(s)|])
  {
    hide Separates;
    if s != [] && !Separates(s[0]) {
      FirstPieceStops(s[1..]);
    }
  }

  lemma {:induction false} StripStopsPrefix(s: string)
    ensures StripStops(s) <= s && forall i :: |StripStops(s)| <= i < |s| ==> IsStop(s[i])
  {
    hide IsStop;
    if s != [] && IsStop(s[|s| - 1]) {
      StripStopsPrefix(s[..|s| - 1]);
    }
  }

  lemma {:induction false} PieceMeaning(core: string)
    ensures var kept, k := Filter(Kept, core), |FirstPiece(Unmark(Lower(core)))|;
            && k <= |kept| && FirstPiece(Unmark(Lower(core))) == Lower(kept[..k])
            && ReadsPiece(core, kept[..k], kept[k..])
  {
    hide FirstPiece, Unmark, LowerChar, Separates, IsSpace, Kept, Cuts;
    var kept := Filter(Kept, core);
    var low := Lower(kept);
    UnmarkedLower(core);
    FirstPieceStops(low);
    forall i | 0 <= i < |kept| ensures Separates(low[i]) <==> Cuts(kept[i]) {
      LowerKeepsMarks(kept[i]);
    }
    assert kept == kept[..|FirstPiece(low)|] + kept[|FirstPiece(low)|..];
  }

  lemma {:induction false} StopsMeaning(piece: string)
    ensures var dashed := Dashed(Lower(piece));
            && |StripStops(dashed)| <= |dashed|
            && ReadsToken(piece, StripStops(dashed), dashed[|StripStops(dashed)|..])
  {
    hide LowerChar, DashChar, IsStop, IsSpace, Folded, Separates, Kept;
    var dashed := Dashed(Lower(piece));
    var token := StripStops(dashed);
    StripStopsPrefix(dashed);
    StripStopsMeaning(dashed);
    assert token + dashed[|token|..] == dashed;
    forall i | 0 <= i < |piece| ensures dashed[i] == Folded(piece[i]) && (IsStop(dashed[i]) <==> dashed[i] in ".:") {
      LowerKeepsMarks(piece[i]);
      LowerKeepsMarks(dashed[i]);
    }
  }

  /** Every raw status has such a reading, of the token it is normalized by. */
  lemma {:induction false} TokenMeaning(raw: string)
    ensures exists piece, rest, stops :: ReadsPiece(Trim(raw), piece, rest) && ReadsToken(piece, Token(raw), stops)
  {
    hide Trim, Unmark, FirstPiece, StripStops, ReadsPiece, ReadsToken;
    PieceMeaning(Trim(raw));
    var kept, k := Filter(Kept, Trim(raw)), |FirstPiece(Unmark(Lower(Trim(raw))))|;
    StopsMeaning(kept[..k]);
    var dashed := Dashed(Lower(kept[..k]));
    assert Token(raw) == StripStops(dashed);
    assert ReadsPiece(Trim(raw), kept[..k], kept[k..]);
    assert ReadsToken(kept[..k], Token(raw), dashed[|Token(raw)|..]);
  }

  /** What a token is looked up as: three spellings of `open` and of `fix-landed`, two of
      `unknown`, and every other word itself, but for the one that is no word. */
  lemma {:induction false} LookupMeaning(token: string, w: string)
    ensures Lookup(token) == Word("open") <==> token in {"open", "opened", "reopened"}
    ensures Lookup(token) == Word("fix-landed") <==> token in {"fix-landed", "fixed", "fix"}
    ensures Lookup(token) == UNKNOWN <==> token in {"", "unknown"}
    ensures w !in {"open", "fix-landed", "unknown"}
            ==> (Lookup(token) == Word(w)
                 <==> token == w && w !in {"", "opened", "reopened", "fixed", "fix", "constructor"})
  {
  }

  lemma {:induction false} StatusMeaning(raw: string, w: string)
    ensures NormalizeStatus(raw) == Word("open") <==> Token(raw) in {"open", "opened", "reopened"}
    ensures NormalizeStatus(raw) == Word("fix-landed") <==> Token(raw) in {"fix-landed", "fixed", "fix"}
    ensures NormalizeStatus(raw) == UNKNOWN <==> Token(raw) in {"", "unknown"}
    ensures w !in {"open", "fix-landed", "unknown"}
            ==> (NormalizeStatus(raw) == Word(w)
                 <==> Token(raw) == w && w !in {"", "opened", "reopened", "fixed", "fix", "constructor"})
  {
    hide Token, Lookup;
    EmptyToken();
    LookupMeaning(Token(raw), w);
    LookupMeaning("", w);
    assert Lookup("") == UNKNOWN;
    assert raw == "" ==> NormalizeStatus(raw) == Lookup(Token(raw));
  }

  /** Normalizing a normalized status changes nothing. */
  lemma {:induction false} NormalizeIdempotent(raw: string)
    requires NormalizeStatus(raw).Word?
    ensures NormalizeStatus(NormalizeStatus(raw).text) == NormalizeStatus(raw)
  {
    hide Plain, Token, Lookup;
    NormalizedIsSettled(raw);
    PlainToken(NormalizeStatus(raw).text);
    LookupMeaning(NormalizeStatus(raw).text, NormalizeStatus(raw).text);
  }

  lemma {:induction false} LowerQuoted(w: string)
    requires Lower(w) == w
    ensures Lower("`" + w + "`") == "`" + w + "`"
  {
    assert forall i :: 0 <= i < |w| ==> LowerChar(w[i]) == Lower(w)[i];
  }

  lemma {:induction false} TrimQuoted(w: string)
    ensures Trim("`" + w + "`") == "`" + w + "`"
  {
    hide IsSpace, Trim;
    NoSpace();
    TrimIdle("`" + w + "`");
  }

  lemma {:induction false} UnmarkQuoted(w: string)
    requires forall i :: 0 <= i < |w| ==> !IsMark(w[i])
    ensures Unmark("`" + w + "`") == w
  {
    hide Unmark;
    UnmarkEnd(w);
    UnmarkStep('`', w + "`");
    assert "`" + w + "`" == ['`'] + (w + "`");
  }

  lemma {:induction false} TokenOfQuoted(w: string)
    requires Plain(w)
    ensures Token("`" + w + "`") == w
  {
    hide IsSpace, Separates, Trim, Unmark, FirstPiece, StripStops, Lower, Dashed;
    TrimQuoted(w);
    PlainIdle(w);
    LowerQuoted(w);
    assert forall i :: 0 <= i < |w| ==> PlainChar(w[i]);
    UnmarkQuoted(w);
  }

  /** Quoting in backticks is undone. */
  lemma {:induction false} QuotedReadsBack(w: string)
    requires Settled(w)
    ensures NormalizeStatus("`" + w + "`") == Word(w)
  {
    hide Lookup, Token, Plain;
    TokenOfQuoted(w);
    LookupMeaning(w, w);
  }

  lemma {:induction false} NoSpace()
    ensures !IsSpace('`') && !IsSpace('#') && !IsSpace('*') && !IsSpace('-') && IsSpace(' ') && IsSpace('\n')
  {
  }

  // ---------- the marks the parser looks for ----------

  /** What `.` does not match. */
  predicate EndsLine(c: char) { c == '\n' || c == '\r' || c == '\U{2028}' || c == '\U{2029}' }

  function LineEnd(text: string, i: nat): (j: nat)
    requires i <= |text|
    ensures i <= j <= |text|
    ensures forall k :: i <= k < j ==> !EndsLine(text[k])
    ensures j < |text| ==> EndsLine(text[j])
    decreases |text| - i
  {
    if i < |text| && !EndsLine(text[i]) then LineEnd(text, i + 1) else i
  }

  /** The last position from `i` on, below `n`, whose character does not end the line. */
  function LastInLine(text: string, i: nat, n: nat): Option<nat>
    requires n <= |text|
  {
    if n <= i then None
    else if !EndsLine(text[n - 1]) then Some(n - 1)
    else LastInLine(text, i, n - 1)
  }

  /** What `\s*(.+)` captures from position `i`. */
  function Capture(text: string, i: nat): Option<string>
    requires i <= |text|
  {
    var j := SkipSpace(text, i);
    if j < |text| then Some(text[j..LineEnd(text, j)])
    else
      match LastInLine(text, i, |text|)
      case None => None
      case Some(k) => Some(if k < |text| then [text[k]] else [])
  }

  predicate StandsAt(text: string, i: nat, word: string) {
    i + |word| <= |text| && Lower(text[i..i + |word|]) == word
  }

  function StatusLabel(): string { "**status**:" }

  /** A bullet with the bold label `status` starts at position `i`. */
  predicate LabelAt(text: string, i: nat) {
    i < |text| && text[i] == '-' && StandsAt(text, SkipSpace(text, i + 1), StatusLabel())
  }

  function StateAt(text: string, i: nat): Option<string> {
    if LabelAt(text, i) then Capture(text, SkipSpace(text, i + 1) + |StatusLabel()|) else None
  }

  predicate LineStart(text: string, i: nat) { i == 0 || (i <= |text| && EndsLine(text[i - 1])) }

  function InlineAt(text: string, i: nat): Option<string> {
    if i < |text| && LineStart(text, i) && text[i] == '-' && StandsAt(text, SkipSpace(text, i + 1), "status:") then
      Capture(text, SkipSpace(text, i + 1) + |"status:"|)
    else None
  }

  predicate IsStatusChar(c: char) { 'a' <= c <= 'z' || 'A' <= c <= 'Z' || c == '_' || c == '-' }

  function StatusRun(text: string, i: nat): string
    requires i <= |text|
    decreases |text| - i
  {
    if i < |text| && IsStatusChar(text[i]) then [text[i]] + StatusRun(text, i + 1) else []
  }

  /** The status word after the last long dash, from `i` and before `n`, that has one. */
  function AfterDash(text: string, i: nat, n: nat): Option<string>
    requires n <= |text|
  {
    if n <= i then None
    else if text[n - 1] == '\U{2014}' && StatusRun(text, SkipSpace(text, n)) != [] then
      Some(StatusRun(text, SkipSpace(text, n)))
    else AfterDash(text, i, n - 1)
  }

  function VerdictAt(text: string, i: nat): Option<string> {
    if LineStart(text, i) && OccursAt(text, i, "##") && StandsAt(text, SkipSpace(text, i + 2), "gate verdict") then
      var j := SkipSpace(text, i + 2) + |"gate verdict"|;
      AfterDash(text, j, LineEnd(text, j))
    else None
  }

  // ---------- the status of a record ----------

  datatype Signal = Signal(position: nat, raw: string)

  /** The leftmost match. */
  function Find(m: (string, nat) -> Option<string>, text: string, i: nat): (r: Option<Signal>)
    requires i <= |text|
    ensures r.Some? ==> i <= r.value.position < |text| && m(text, r.value.position) == Some(r.value.raw)
    ensures r.Some? ==> forall k :: i <= k < r.value.position ==> m(text, k).None?
    ensures r.None? ==> forall k :: i <= k < |text| ==> m(text, k).None?
    decreases |text| - i
  {
    if i == |text| then None
    else
      match m(text, i)
      case Some(raw) => Some(Signal(i, raw))
      case None => Find(m, text, i + 1)
  }

  datatype Source = StateBlock | Inline | GateVerdict | NoSignal | Missing

  datatype Extracted = Extracted(status: Status, source: Source)

  function Earliest(inline: Option<Signal>, verdict: Option<Signal>): Extracted {
    if inline.None? && verdict.None? then Extracted(UNKNOWN, NoSignal)
    else if verdict.None? || (inline.Some? && inline.value.position <= verdict.value.position) then
      Extracted(NormalizeStatus(inline.value.raw), Inline)
    else Extracted(NormalizeStatus(verdict.value.raw), GateVerdict)
  }

  function ExtractStatus(text: string): Extracted {
    match Find(StateAt, text, 0)
    case Some(state) => Extracted(NormalizeStatus(state.raw), StateBlock)
    case None => Earliest(Find(InlineAt, text, 0), Find(VerdictAt, text, 0))
  }

  /** The signal that stands at one position, if any. */
  function SignalAt(text: string, i: nat): Option<Extracted> {
    match InlineAt(text, i)
    case Some(raw) => Some(Extracted(NormalizeStatus(raw), Inline))
    case None =>
      match VerdictAt(text, i)
      case Some(raw) => Some(Extracted(NormalizeStatus(raw), GateVerdict))
      case None => None
  }

  ghost predicate HasState(text: string) { exists i :: 0 <= i < |text| && StateAt(text, i).Some? }

  ghost predicate FirstSignal(text: string, i: nat) {
    i < |text| && SignalAt(text, i).Some? && forall k :: 0 <= k < i ==> SignalAt(text, k).None?
  }

  lemma {:induction false} NotBoth(text: string, i: nat)
    requires i < |text|
    ensures InlineAt(text, i).None? || VerdictAt(text, i).None?
  {
    assert OccursAt(text, i, "##") ==> text[i] == text[i..i + 2][0] == '#';
  }

  /** The bold label wins wherever it stands; without one it is position that decides
      between the other two signals, not their kind. */
  lemma {:induction false} EarliestSignalDecides(text: string)
    ensures ExtractStatus(text).source == StateBlock <==> HasState(text)
    ensures ExtractStatus(text).source == NoSignal
            <==> !HasState(text) && forall k :: 0 <= k < |text| ==> SignalAt(text, k).None?
    ensures !HasState(text) && ExtractStatus(text).source != NoSignal
            ==> exists i :: FirstSignal(text, i) && SignalAt(text, i) == Some(ExtractStatus(text))
  {
    hide StateAt, InlineAt, VerdictAt, NormalizeStatus;
    if !HasState(text) {
      var inline, verdict := Find(InlineAt, text, 0), Find(VerdictAt, text, 0);
      if inline.Some? || verdict.Some? {
        var i := if verdict.None? || (inline.Some? && inline.value.position <= verdict.value.position)
        then inline.value.position else verdict.value.position;
        NotBoth(text, i);
        assert FirstSignal(text, i);
      }
    }
  }

  // ---------- what the marks match ----------

  /** What is captured after white space: the rest of the line from the first character
      that is not white space, or where there is none, the last character that does not
      end a line. */
  ghost predicate Captures(text: string, p: nat, raw: string) {
    || (exists k, e :: p <= k < e <= |text| && RestOfLine(text, p, k, e) && raw == text[k..e])
    || (p <= |text| && Blank(text[p..]) && exists m :: p <= m < |text| && LastOnLine(text, m) && raw == [text[m]])
  }

  ghost predicate RestOfLine(text: string, p: nat, k: nat, e: nat)
    requires p <= k < e <= |text|
  {
    && Blank(text[p..k]) && !IsSpace(text[k])
    && (forall m :: k <= m < e ==> !EndsLine(text[m])) && (e < |text| ==> EndsLine(text[e]))
  }

  ghost predicate LastOnLine(text: string, m: nat)
    requires m < |text|
  {
    !EndsLine(text[m]) && forall n :: m < n < |text| ==> EndsLine(text[n])
  }

  lemma {:induction false} LastInLineMeaning(text: string, i: nat, n: nat)
    requires n <= |text|
    ensures var r := LastInLine(text, i, n);
            && (r.Some? ==> i <= r.value < n && !EndsLine(text[r.value]))
            && forall k :: (if r.Some? then r.value < k else i <= k) && k < n ==> EndsLine(text[k])
  {
    hide EndsLine;
    if i < n && EndsLine(text[n - 1]) {
      LastInLineMeaning(text, i, n - 1);
    }
  }

  lemma {:induction false} EndsAreSpace(c: char)
    ensures EndsLine(c) ==> IsSpace(c)
  {
  }

  lemma {:induction false} BlankFrom(text: string, p: nat, k: nat)
    requires p <= k <= |text| && Blank(text[p..k]) && (k < |text| ==> !IsSpace(text[k]))
    ensures SkipSpace(text, p) == k
  {
    hide IsSpace;
    assert forall m :: p <= m < k ==> text[m] == text[p..k][m - p];
    SkipSpaceIs(text, p, k);
  }

  lemma {:induction false} BlankToSkip(text: string, p: nat)
    requires p <= |text|
    ensures Blank(text[p..SkipSpace(text, p)])
  {
    hide IsSpace;
  }

  lemma {:induction false} LineEndsAt(text: string, k: nat, e: nat)
    requires k <= e <= |text| && (forall m :: k <= m < e ==> !EndsLine(text[m])) && (e < |text| ==> EndsLine(text[e]))
    ensures LineEnd(text, k) == e
  {
    hide EndsLine;
    var end := LineEnd(text, k);
    assert !(e < end) && !(end < e);
  }

  lemma {:induction false} CapturedIs(text: string, p: nat, raw: string)
    requires Captures(text, p, raw)
    ensures p <= |text| && Capture(text, p) == Some(raw)
  {
    hide IsSpace, EndsLine, Blank;
    if k, e :| p <= k < e <= |text| && RestOfLine(text, p, k, e) && raw == text[k..e] {
      BlankFrom(text, p, k);
      LineEndsAt(text, k, e);
    } else {
      var m :| p <= m < |text| && LastOnLine(text, m) && raw == [text[m]];
      assert text[p..] == text[p..|text|];
      BlankFrom(text, p, |text|);
      LastInLineMeaning(text, p, |text|);
    }
  }

  lemma {:induction false} CaptureIsOne(text: string, p: nat)
    requires p <= |text| && Capture(text, p).Some?
    ensures Captures(text, p, Capture(text, p).value)
  {
    hide IsSpace, EndsLine, Blank;
    var j := SkipSpace(text, p);
    BlankToSkip(text, p);
    if j < |text| {
      EndsAreSpace(text[j]);
      assert RestOfLine(text, p, j, LineEnd(text, j));
    } else {
      assert text[p..j] == text[p..];
      LastInLineMeaning(text, p, |text|);
      assert LastOnLine(text, LastInLine(text, p, |text|).value);
    }
  }

  /** From `p` on there is white space and then, at `j` and in whatever case, a word. */
  ghost predicate Follows(text: string, p: nat, j: nat, word: string) {
    p <= j <= |text| - |word| && Blank(text[p..j]) && Lower(text[j..j + |word|]) == word
  }

  lemma {:induction false} FollowsMeaning(text: string, p: nat, j: nat, word: string)
    requires p <= |text| && word != [] && !IsSpace(word[0])
    ensures Follows(text, p, j, word) <==> j == SkipSpace(text, p) && StandsAt(text, j, word)
  {
    hide IsSpace, Blank;
    BlankToSkip(text, p);
    if Follows(text, p, j, word) {
      FirstLetter(text[j], word[0]);
      assert Lower(text[j..j + |word|])[0] == LowerChar(text[j]);
      BlankFrom(text, p, j);
    }
  }

  lemma {:induction false} FirstLetter(c: char, d: char)
    ensures LowerChar(c) == d && !IsSpace(d) ==> !IsSpace(c)
  {
  }

  ghost predicate BeginsLine(text: string, i: nat) { i < |text| && (i == 0 || EndsLine(text[i - 1])) }

  /** A line begins with a dash, white space and `status:`, and this is captured behind. */
  ghost predicate MatchesInline(text: string, i: nat, raw: string) {
    exists j: nat :: InlineParts(text, i, j, raw)
  }

  ghost predicate InlineParts(text: string, i: nat, j: nat, raw: string) {
    BeginsLine(text, i) && text[i] == '-' && Follows(text, i + 1, j, "status:") && Captures(text, j + 7, raw)
  }

  /** A dash, white space and the bold label, at the start of a line or not. */
  ghost predicate MatchesState(text: string, i: nat, raw: string) {
    exists j: nat :: StateParts(text, i, j, raw)
  }

  ghost predicate StateParts(text: string, i: nat, j: nat, raw: string) {
    i < |text| && text[i] == '-' && Follows(text, i + 1, j, "**status**:") && Captures(text, j + 11, raw)
  }

  lemma {:induction false} LabelStarts()
    ensures !IsSpace("status:"[0]) && !IsSpace("gate verdict"[0])
    ensures StatusLabel() == "**status**:" && |StatusLabel()| == 11 && !IsSpace(StatusLabel()[0])
  {
  }

  lemma {:induction false} CaptureMeaning(text: string, p: nat, raw: string)
    requires p <= |text|
    ensures Capture(text, p) == Some(raw) <==> Captures(text, p, raw)
  {
    hide Capture, Captures;
    if Capture(text, p).Some? {
      CaptureIsOne(text, p);
    }
    if Captures(text, p, raw) {
      CapturedIs(text, p, raw);
    }
  }

  lemma {:induction false} InlineMeaning(text: string, i: nat, raw: string)
    ensures InlineAt(text, i) == Some(raw) <==> MatchesInline(text, i, raw)
  {
    hide IsSpace, EndsLine, Follows, Captures, Capture, StandsAt;
    LabelStarts();
    if i < |text| {
      var j := SkipSpace(text, i + 1);
      FollowsMeaning(text, i + 1, j, "status:");
      if StandsAt(text, j, "status:") {
        StandsWithin(text, j, "status:");
        CaptureMeaning(text, j + 7, raw);
        assert InlineAt(text, i) == Some(raw) ==> InlineParts(text, i, j, raw);
      }
      if k: nat :| InlineParts(text, i, k, raw) {
        FollowsMeaning(text, i + 1, k, "status:");
      }
    }
  }

  lemma {:induction false} StandsWithin(text: string, j: nat, word: string)
    requires StandsAt(text, j, word)
    ensures j + |word| <= |text|
  {
  }

  lemma {:induction false} StateMeaning(text: string, i: nat, raw: string)
    ensures StateAt(text, i) == Some(raw) <==> MatchesState(text, i, raw)
  {
    hide IsSpace, EndsLine, Follows, Captures, Capture, StandsAt, StatusLabel;
    LabelStarts();
    if i < |text| {
      var j := SkipSpace(text, i + 1);
      FollowsMeaning(text, i + 1, j, StatusLabel());
      if StandsAt(text, j, StatusLabel()) {
        StandsWithin(text, j, StatusLabel());
        CaptureMeaning(text, j + 11, raw);
        assert StateAt(text, i) == Some(raw) ==> StateParts(text, i, j, raw);
      }
      if k: nat :| StateParts(text, i, k, raw) {
        FollowsMeaning(text, i + 1, k, StatusLabel());
      }
    }
  }

  // The gate verdict.

  ghost predicate StatusLetter(c: char) { 'a' <= c <= 'z' || 'A' <= c <= 'Z' || c in "_-" }

  /** A whole word of letters, underscores and dashes. */
  ghost predicate WordAt(text: string, k: nat, raw: string) {
    && k + |raw| <= |text| && text[k..k + |raw|] == raw
    && (forall m :: k <= m < k + |raw| ==> StatusLetter(text[m]))
    && (k + |raw| < |text| ==> !StatusLetter(text[k + |raw|]))
  }

  /** At `d` stands a long dash, and behind it, after white space, such a word. */
  ghost predicate DashWord(text: string, d: nat, raw: string) {
    && d < |text| && text[d] == '\U{2014}' && raw != []
    && exists k :: d < k <= |text| && Blank(text[d + 1..k]) && WordAt(text, k, raw)
  }

  ghost predicate SameLine(text: string, p: nat, d: nat) {
    d <= |text| && forall m :: p <= m < d ==> !EndsLine(text[m])
  }

  ghost predicate LastDashWord(text: string, p: nat, d: nat, raw: string) {
    && p <= d && SameLine(text, p, d) && DashWord(text, d, raw)
    && forall later, word :: d < later && SameLine(text, p, later) ==> !DashWord(text, later, word)
  }

  /** The word behind the last long dash, from `p` to the end of the line, that has one. */
  ghost predicate EndsInWord(text: string, p: nat, raw: string) { exists d :: LastDashWord(text, p, d, raw) }

  /** A line begins with two hashes, white space and `gate verdict`, and ends in this word. */
  ghost predicate MatchesVerdict(text: string, i: nat, raw: string) {
    exists j: nat :: VerdictParts(text, i, j, raw)
  }

  ghost predicate VerdictParts(text: string, i: nat, j: nat, raw: string) {
    && BeginsLine(text, i) && i + 2 <= |text| && text[i] == '#' && text[i + 1] == '#'
    && Follows(text, i + 2, j, "gate verdict") && EndsInWord(text, j + 12, raw)
  }

  lemma {:induction false} StatusRunMeaning(text: string, i: nat)
    requires i <= |text|
    ensures WordAt(text, i, StatusRun(text, i))
    decreases |text| - i
  {
    if i < |text| && IsStatusChar(text[i]) {
      StatusRunMeaning(text, i + 1);
    }
  }

  lemma {:induction false} OneWordAt(text: string, k: nat, a: string, b: string)
    requires WordAt(text, k, a) && WordAt(text, k, b)
    ensures a == b
  {
    hide StatusLetter;
    assert !(|a| < |b|) && !(|b| < |a|);
  }

  lemma {:induction false} LetterIsNoSpace(c: char)
    requires StatusLetter(c)
    ensures !IsSpace(c)
  {
  }

  lemma {:induction false} DashWordMeaning(text: string, d: nat, raw: string)
    ensures DashWord(text, d, raw)
       <==> d < |text| && text[d] == '\U{2014}' && raw != [] && StatusRun(text, SkipSpace(text, d + 1)) == raw
  {
    hide IsSpace, Blank, StatusLetter, StatusRun;
    if d < |text| {
      var j := SkipSpace(text, d + 1);
      BlankToSkip(text, d + 1);
      StatusRunMeaning(text, j);
      if DashWord(text, d, raw) {
        var k :| d < k <= |text| && Blank(text[d + 1..k]) && WordAt(text, k, raw);
        LetterIsNoSpace(text[k]);
        BlankFrom(text, d + 1, k);
        OneWordAt(text, k, raw, StatusRun(text, j));
      }
    }
  }

  lemma {:induction false} NoDashWord(text: string, d: nat, word: string)
    requires d < |text| && !(text[d] == '\U{2014}' && StatusRun(text, SkipSpace(text, d + 1)) != [])
    ensures !DashWord(text, d, word)
  {
    DashWordMeaning(text, d, word);
  }

  lemma {:induction false} AfterDashMeaning(text: string, i: nat, n: nat) returns (d: nat)
    requires n <= |text|
    ensures var r := AfterDash(text, i, n);
            && (r.Some? ==> i <= d < n && DashWord(text, d, r.value))
            && forall later: nat, word ::
                 (if r.Some? then d < later else i <= later) && later < n ==> !DashWord(text, later, word)
  {
    hide DashWord, StatusRun;
    d := 0;
    if i < n {
      if text[n - 1] == '\U{2014}' && StatusRun(text, SkipSpace(text, n)) != [] {
        d := n - 1;
        DashWordMeaning(text, d, StatusRun(text, SkipSpace(text, n)));
      } else {
        d := AfterDashMeaning(text, i, n - 1);
        forall later: nat, word | later == n - 1 ensures !DashWord(text, later, word) {
          NoDashWord(text, n - 1, word);
        }
      }
    }
  }

  lemma {:induction false} SameLineMeaning(text: string, p: nat, d: nat)
    requires p <= d < |text| && text[d] == '\U{2014}'
    ensures SameLine(text, p, d) <==> d < LineEnd(text, p)
  {
    assert !EndsLine(text[d]);
    hide EndsLine;
  }

  lemma {:induction false} OneDashWord(text: string, d: nat, a: string, b: string)
    requires DashWord(text, d, a) && DashWord(text, d, b)
    ensures a == b
  {
    hide DashWord;
    DashWordMeaning(text, d, a);
    DashWordMeaning(text, d, b);
  }

  lemma {:induction false} EndsInWordMeaning(text: string, p: nat, raw: string)
    requires p <= |text|
    ensures AfterDash(text, p, LineEnd(text, p)) == Some(raw) <==> EndsInWord(text, p, raw)
  {
    hide AfterDash, StatusRun, EndsLine, SameLine;
    var n := LineEnd(text, p);
    var d := AfterDashMeaning(text, p, n);
    forall e: nat, word: string | p <= e && DashWord(text, e, word) ensures SameLine(text, p, e) <==> e < n {
      SameLineMeaning(text, p, e);
    }
    hide DashWord;
    if AfterDash(text, p, n) == Some(raw) {
      assert LastDashWord(text, p, d, raw);
    }
    if e: nat :| LastDashWord(text, p, e, raw) {
      assert AfterDash(text, p, n).Some?;
      assert SameLine(text, p, d) && DashWord(text, d, AfterDash(text, p, n).value);
      OneDashWord(text, d, raw, AfterDash(text, p, n).value);
    }
  }

  lemma {:induction false} TwoHashes(text: string, i: nat)
    ensures OccursAt(text, i, "##") <==> i + 2 <= |text| && text[i] == '#' && text[i + 1] == '#'
  {
    if i + 2 <= |text| {
      assert text[i..i + 2] == [text[i], text[i + 1]];
    }
  }

  lemma {:induction false} VerdictMeaning(text: string, i: nat, raw: string)
    ensures VerdictAt(text, i) == Some(raw) <==> MatchesVerdict(text, i, raw)
  {
    hide IsSpace, EndsLine, Follows, AfterDash, EndsInWord, StandsAt, OccursAt;
    TwoHashes(text, i);
    LabelStarts();
    if i + 2 <= |text| {
      var j := SkipSpace(text, i + 2);
      FollowsMeaning(text, i + 2, j, "gate verdict");
      if StandsAt(text, j, "gate verdict") {
        StandsWithin(text, j, "gate verdict");
        EndsInWordMeaning(text, j + 12, raw);
        assert VerdictAt(text, i) == Some(raw) ==> VerdictParts(text, i, j, raw);
      }
      if k: nat :| VerdictParts(text, i, k, raw) {
        FollowsMeaning(text, i + 2, k, "gate verdict");
      }
    }
  }

  // ---------- the migration ----------

  /** The columns of an index row. */
  datatype Row = Row(cell: string, concern: string, violated: string)

  function IndexStatus(row: Row): Status { NormalizeStatus(row.cell) }

  /** A status as it is printed into a text. */
  function Show(status: Status): string {
    match status
    case Word(w) => w
    case NativeFunction => "function" + [' '] + "Object() { [native code] }"
  }

  const HEADER := "### STATE"

  function Note(): string { " (current truth \U{2014} read " + "only this header to act; " + "history below)" }

  function HeaderLine(): string { HEADER + Note() }

  function Opening(): string { ['\n'] + HeaderLine() + ['\n', '\n'] }

  function Bullet(): string { "- **status**: " }

  function Quoted(status: Status): string { "`" + Show(status) + "`" }

  function StatusLine(row: Row): string { Bullet() + Quoted(IndexStatus(row)) }

  function Fields(row: Row, gate: string): string {
    "\n- **concern**: " + row.concern + "\n- **firstViolatedInvariant**: " + row.violated
    + "\n- **lastGate**: " + gate + "\n"
  }

  function Block(row: Row, gate: string): string { Opening() + StatusLine(row) + Fields(row, gate) }

  function HashRun(line: string): (n: nat)
    ensures n <= |line|
  {
    if line != [] && line[0] == '#' then 1 + HashRun(line[1..]) else 0
  }

  predicate IsHeading(line: string) {
    var n := HashRun(line);
    var j := SkipSpace(line, n);
    n > 0 && j > n && OccursAt(line, j, "CL-") && j + 3 < |line| && IsDigit(line[j + 3])
  }

  /** One behind the first line from `i` on that meets `p`, or zero. */
  function BehindFirst(p: string -> bool, lines: seq<string>, i: nat): (at: nat)
    requires i <= |lines|
    ensures at <= |lines|
    ensures at > 0 ==> i < at && p(lines[at - 1]) && forall k :: i <= k < at - 1 ==> !p(lines[k])
    ensures at == 0 ==> forall k :: i <= k < |lines| ==> !p(lines[k])
    decreases |lines| - i
  {
    if i == |lines| then 0 else if p(lines[i]) then i + 1 else BehindFirst(p, lines, i + 1)
  }

  function Lines(text: string): seq<string> { Split(text, '\n') }

  /** Where the block goes: behind the first heading, or in front of everything. */
  function At(text: string): (at: nat)
    ensures at <= |Lines(text)|
  {
    BehindFirst(IsHeading, Lines(text), 0)
  }

  function WithBlock(text: string, row: Row, gate: string): string {
    Join(Lines(text)[..At(text)] + [Block(row, gate)] + Lines(text)[At(text)..], '\n')
  }

  /** A line of the text starts with the header of a block. */
  predicate HasHeader(text: string) {
    exists i: nat :: i < |text| && LineStart(text, i) && OccursAt(text, i, HEADER)
  }

  /** The lines of the block. */
  function BlockLines(row: Row, gate: string): seq<string> {
    ["",
     "### STATE" + Note(),
     "",
     "- **status**: `" + Show(IndexStatus(row)) + "`",
     "- **concern**: " + row.concern,
     "- **firstViolatedInvariant**: " + row.violated,
     "- **lastGate**: " + gate,
     ""]
  }

  lemma {:induction false} JoinFour(a: string, b: string, c: string, d: string, e: seq<string>)
    requires e != []
    ensures Join([a, b, c, d] + e, '\n') == a + ['\n'] + (b + ['\n'] + (c + ['\n'] + (d + ['\n'] + Join(e, '\n'))))
  {
    hide Join;
    JoinStep(a, [b, c, d] + e, '\n');
    JoinStep(b, [c, d] + e, '\n');
    JoinStep(c, [d] + e, '\n');
    JoinStep(d, e, '\n');
    assert [a, b, c, d] + e == [a] + ([b, c, d] + e);
    assert [b, c, d] + e == [b] + ([c, d] + e);
    assert [c, d] + e == [c] + ([d] + e);
  }

  lemma {:induction false} FieldLabels()
    ensures "\n- **concern**: " == ['\n'] + "- **concern**: "
    ensures "\n- **firstViolatedInvariant**: " == ['\n'] + "- **firstViolatedInvariant**: "
    ensures "\n- **lastGate**: " == ['\n'] + "- **lastGate**: "
  {
  }

  lemma {:induction false} RegroupFields(a: string, x: string, b: string, y: string, c: string, z: string)
    ensures (['\n'] + a) + x + (['\n'] + b) + y + (['\n'] + c) + z + ['\n']
         == ['\n'] + ((a + x) + ['\n'] + (b + y) + ['\n'] + (c + z) + ['\n'])
  {
  }

  lemma {:induction false} FieldsJoined(row: Row, gate: string)
    ensures ['\n'] + Join(BlockLines(row, gate)[4..], '\n') == Fields(row, gate)
  {
    hide Join, Note, Show;
    var lines := BlockLines(row, gate);
    assert lines[4..] == [lines[4], lines[5], lines[6]] + [""];
    JoinThree(lines[4], lines[5], lines[6]);
    FieldLabels();
    RegroupFields("- **concern**: ", row.concern, "- **firstViolatedInvariant**: ", row.violated,
                  "- **lastGate**: ", gate);
  }

  lemma {:induction false} JoinThree(a: string, b: string, c: string)
    ensures Join([a, b, c] + [""], '\n') == a + ['\n'] + b + ['\n'] + c + ['\n']
  {
    assert ([a, b, c] + [""])[1..] == [b, c, ""] && [b, c, ""][1..] == [c, ""] && [c, ""][1..] == [""];
    assert Join([c, ""], '\n') == c + ['\n'];
    assert Join([b, c, ""], '\n') == b + ['\n'] + (c + ['\n']);
  }

  /** The printed block is its lines, joined. */
  lemma {:induction false} BlockIsJoined(row: Row, gate: string)
    ensures Block(row, gate) == Join(BlockLines(row, gate), '\n')
  {
    hide Fields, Note, Show, Join;
    var lines := BlockLines(row, gate);
    var status := lines[3];
    FieldsJoined(row, gate);
    JoinFour("", HeaderLine(), "", status, lines[4..]);
    assert lines == ["", HeaderLine(), "", status] + lines[4..];
    assert StatusLine(row) == status;
    assert Block(row, gate) == ['\n'] + HeaderLine() + ['\n', '\n'] + status + Fields(row, gate);
  }

  /** Hashes, white space, the letters `CL-` and a digit. */
  ghost predicate HeadingParts(line: string, n: nat, j: nat) {
    && 0 < n < j && j + 3 < |line|
    && (forall k :: 0 <= k < n ==> line[k] == '#') && Blank(line[n..j])
    && line[j] == 'C' && line[j + 1] == 'L' && line[j + 2] == '-' && '0' <= line[j + 3] <= '9'
  }

  lemma {:induction false} HashRunMeaning(line: string)
    ensures forall k :: 0 <= k < HashRun(line) ==> line[k] == '#'
    ensures HashRun(line) < |line| ==> line[HashRun(line)] != '#'
  {
    if line != [] && line[0] == '#' {
      HashRunMeaning(line[1..]);
    }
  }

  lemma {:induction false} LetterC()
    ensures !IsSpace('C') && !IsSpace('#')
  {
  }

  lemma {:induction false} RecordPrefix(line: string, j: nat)
    ensures OccursAt(line, j, "CL-") <==> j + 3 <= |line| && line[j] == 'C' && line[j + 1] == 'L' && line[j + 2] == '-'
  {
    if j + 3 <= |line| {
      assert line[j..j + 3] == [line[j], line[j + 1], line[j + 2]];
    }
  }

  /** The lines that count as the heading of a record. */
  lemma {:induction false} HeadingMeaning(line: string)
    ensures IsHeading(line) <==> exists n: nat, j: nat :: HeadingParts(line, n, j)
  {
    hide IsSpace, OccursAt, HashRun;
    var n := HashRun(line);
    var j := SkipSpace(line, n);
    HashRunMeaning(line);
    RecordPrefix(line, j);
    BlankToSkip(line, n);
    LetterC();
    if IsHeading(line) {
      assert HeadingParts(line, n, j);
    }
    if m: nat, k: nat :| HeadingParts(line, m, k) {
      assert line[m] == line[m..k][0];
      assert m == n;
      BlankFrom(line, n, k);
    }
  }

  // ---------- only lines are inserted ----------

  /** What joining puts in front of a piece. */
  function Lead(a: seq<string>, s: char): string { if a == [] then [] else Join(a, s) + [s] }

  /** What joining puts behind a piece. */
  function Tail(c: seq<string>, s: char): string { if c == [] then [] else [s] + Join(c, s) }

  lemma {:induction false} LeadStep(a: seq<string>, s: char)
    requires a != []
    ensures Lead(a, s) == a[0] + [s] + Lead(a[1..], s)
  {
    if |a| > 1 {
      assert a[0] + [s] + Join(a[1..], s) + [s] == a[0] + [s] + (Join(a[1..], s) + [s]);
    }
  }

  lemma {:induction false} JoinStep(x: string, t: seq<string>, s: char)
    requires t != []
    ensures Join([x] + t, s) == x + [s] + Join(t, s)
  {
    assert ([x] + t)[1..] == t;
  }

  lemma {:induction false} Regroup4(a: string, b: string, c: string, d: string)
    ensures a + (b + c + d) == a + b + c + d
  {
  }

  lemma {:induction false} JoinAround(a: seq<string>, b: string, c: seq<string>, s: char)
    ensures Join(a + [b] + c, s) == Lead(a, s) + b + Tail(c, s)
  {
    if a == [] {
      assert a + [b] + c == [b] + c;
      assert ([b] + c)[1..] == c;
    } else {
      hide Tail, Lead, Join;
      JoinAround(a[1..], b, c, s);
      LeadStep(a, s);
      assert a + [b] + c == [a[0]] + (a[1..] + [b] + c);
      JoinStep(a[0], a[1..] + [b] + c, s);
      Regroup4(a[0] + [s], Lead(a[1..], s), b, Tail(c, s));
    }
  }

  lemma {:induction false} SplitTail(b: string, c: seq<string>, s: char)
    requires forall i :: 0 <= i < |c| ==> s !in c[i]
    ensures Split(b + Tail(c, s), s) == Split(b, s) + c
  {
    hide Split, Join;
    if c == [] {
      assert b + Tail(c, s) == b;
    } else {
      SplitConcat(b, Join(c, s), s);
      SplitJoin(c, s);
    }
  }

  lemma {:induction false} SplitLead(a: seq<string>, rest: string, s: char)
    requires forall i :: 0 <= i < |a| ==> s !in a[i]
    ensures Split(Lead(a, s) + rest, s) == a + Split(rest, s)
  {
    hide Split, Join;
    if a == [] {
      assert Lead(a, s) + rest == rest;
    } else {
      assert Lead(a, s) + rest == Join(a, s) + ([s] + rest);
      SplitConcat(Join(a, s), rest, s);
      SplitJoin(a, s);
    }
  }

  lemma {:induction false} SplitAround(a: seq<string>, b: string, c: seq<string>, s: char)
    requires forall i :: 0 <= i < |a| ==> s !in a[i]
    requires forall i :: 0 <= i < |c| ==> s !in c[i]
    ensures Split(Join(a + [b] + c, s), s) == a + Split(b, s) + c
  {
    hide Split, Join, Tail, Lead;
    JoinAround(a, b, c, s);
    SplitTail(b, c, s);
    SplitLead(a, b + Tail(c, s), s);
    assert Lead(a, s) + b + Tail(c, s) == Lead(a, s) + (b + Tail(c, s));
    assert a + Split(b, s) + c == a + (Split(b, s) + c);
  }

  /** The migrated record has the lines of the block in one place and its old lines,
      unchanged and in order, around them. */
  lemma {:induction false} MigrationOnlyInserts(text: string, row: Row, gate: string)
    ensures var at := At(text);
            && Lines(WithBlock(text, row, gate)) == Lines(text)[..at] + Lines(Block(row, gate)) + Lines(text)[at..]
            && Join(Lines(text)[..at] + Lines(text)[at..], '\n') == text
  {
    hide Split, Join, Block, At;
    SplitParts(text, '\n');
    JoinSplit(text, '\n');
    var lines, at := Lines(text), At(text);
    assert lines[..at] + lines[at..] == lines;
    SplitAround(lines[..at], Block(row, gate), lines[at..], '\n');
  }

  /** The record up to and with its heading. */
  function Head(text: string): string { Lead(Lines(text)[..At(text)], '\n') }

  function Rest(text: string): string { Tail(Lines(text)[At(text)..], '\n') }

  lemma {:induction false} Regroup(a: string, b: string, c: string, d: string, e: string)
    ensures a + (b + c + d) + e == a + b + c + (d + e)
    ensures a + b + (c + (d + e)) == a + b + c + (d + e)
  {
  }

  lemma {:induction false} WithBlockText(text: string, row: Row, gate: string)
    ensures WithBlock(text, row, gate) == Head(text) + Opening() + StatusLine(row) + (Fields(row, gate) + Rest(text))
  {
    hide Fields, StatusLine, Opening, Join, At, Lines;
    var lines, at := Lines(text), At(text);
    JoinAround(lines[..at], Block(row, gate), lines[at..], '\n');
    Regroup(Head(text), Opening(), StatusLine(row), Fields(row, gate), Rest(text));
  }

  // ---------- a second run migrates nothing ----------

  lemma {:induction false} OpeningHeader(head: string, tail: string)
    ensures HasHeader(head + Opening() + tail)
  {
    hide Note;
    var text := head + Opening() + tail;
    var i := |head| + 1;
    assert text[|head|] == Opening()[0] == '\n';
    assert text[i..i + |HEADER|] == Opening()[1..1 + |HEADER|] == HEADER;
    assert LineStart(text, i) && OccursAt(text, i, HEADER);
  }

  /** A migrated record has the header that keeps the next run from touching it. */
  lemma {:induction false} MigratedHasHeader(text: string, row: Row, gate: string)
    ensures HasHeader(WithBlock(text, row, gate))
  {
    hide HasHeader, Fields, StatusLine, Head, Rest, WithBlock, Opening;
    WithBlockText(text, row, gate);
    OpeningHeader(Head(text), StatusLine(row) + (Fields(row, gate) + Rest(text)));
    Regroup(Head(text), Opening(), StatusLine(row), Fields(row, gate), Rest(text));
  }

  // ---------- the parser reads the printed status back ----------

  /** No label stands at or before the heading. */
  ghost predicate NoLabel(head: string) { forall i :: 0 <= i < |head| ==> !LabelAt(head, i) }

  lemma {:induction false} SkipSpaceIs(s: string, i: nat, j: nat)
    requires i <= j <= |s| && (forall k :: i <= k < j ==> IsSpace(s[k])) && (j < |s| ==> !IsSpace(s[j]))
    ensures SkipSpace(s, i) == j
  {
    hide IsSpace;
    var k := SkipSpace(s, i);
    assert !(j < k);
  }

  lemma {:induction false} LabelHasNoBreak(text: string, j: nat, k: nat)
    requires StandsAt(text, j, StatusLabel()) && j <= k < j + |StatusLabel()|
    ensures text[k] != '\n' && text[k] != '#'
  {
    var found := text[j..j + |StatusLabel()|];
    assert found[k - j] == text[k];
    assert Lower(found)[k - j] == LowerChar(text[k]);
    assert '\n' !in StatusLabel() && '#' !in StatusLabel();
  }

  /** A label does not reach over the line break that ends the heading. */
  lemma {:induction false} LabelStaysInHead(head: string, tail: string, i: nat)
    requires head != [] && head[|head| - 1] == '\n' && |tail| >= 2 && tail[0] == '\n' && tail[1] == '#'
    requires i < |head| && LabelAt(head + tail, i)
    ensures LabelAt(head, i)
  {
    hide IsSpace;
    NoSpace();
    var text := head + tail;
    var j := SkipSpace(text, i + 1);
    assert text[|head| - 1] == '\n' && text[|head|] == '\n' && text[|head| + 1] == '#';
    forall k | j <= k < j + |StatusLabel()| ensures text[k] != '\n' && text[k] != '#' {
      LabelHasNoBreak(text, j, k);
    }
    assert j != |head| && j <= |head| + 1;
    assert j + |StatusLabel()| <= |head|;
    assert forall k :: i < k <= j ==> head[k] == text[k];
    SkipSpaceIs(head, i + 1, j);
    assert head[j..j + |StatusLabel()|] == text[j..j + |StatusLabel()|];
  }

  lemma {:induction false} NoteText()
    ensures '-' !in Note()
  {
    var a, b, c := " (current truth \U{2014} read ", "only this header to act; ", "history below)";
    assert '-' !in a && '-' !in b && '-' !in c;
    assert Note() == a + b + c;
  }

  lemma {:induction false} OpeningText()
    ensures '-' !in Opening() && |Opening()| >= 2 && Opening()[0] == '\n' && Opening()[1] == '#'
  {
    hide Note;
    NoteText();
  }

  lemma {:induction false} BulletText()
    ensures |Bullet()| == 14 && |StatusLabel()| == 11 && Bullet()[2..13] == StatusLabel()
    ensures Bullet()[0] == '-' && Bullet()[1] == ' ' && Bullet()[2] == '*' && Bullet()[13] == ' '
    ensures Lower(StatusLabel()) == StatusLabel()
  {
  }

  lemma {:induction false} BulletRead(before: string, after: string)
    requires after != [] && !IsSpace(after[0])
    ensures var text, i := before + Bullet() + after, |before|;
            && LabelAt(text, i)
            && SkipSpace(text, i + 1) + |StatusLabel()| == i + 13
            && SkipSpace(text, i + 13) == i + 14
  {
    hide IsSpace, Bullet, StatusLabel;
    NoSpace();
    BulletText();
    var text, i := before + Bullet() + after, |before|;
    assert text[i] == Bullet()[0] && text[i + 1] == Bullet()[1] && text[i + 2] == Bullet()[2];
    assert text[i + 13] == Bullet()[13] && text[i + 14] == after[0];
    SkipSpaceIs(text, i + 1, i + 2);
    SkipSpaceIs(text, i + 13, i + 14);
    assert text[i + 2..i + 13] == Bullet()[2..13];
  }

  lemma {:induction false} LineEndIs(text: string, i: nat, j: nat)
    requires i <= j < |text| && EndsLine(text[j]) && forall k :: i <= k < j ==> !EndsLine(text[k])
    ensures LineEnd(text, i) == j
  {
    var e := LineEnd(text, i);
    assert !(j < e);
  }

  /** The printed status line, wherever it stands. */
  lemma {:induction false} StatusLineRead(before: string, quoted: string, after: string)
    requires quoted != [] && !IsSpace(quoted[0]) && forall i :: 0 <= i < |quoted| ==> !EndsLine(quoted[i])
    requires after != [] && EndsLine(after[0])
    ensures StateAt(before + Bullet() + (quoted + after), |before|) == Some(quoted)
  {
    hide IsSpace, LabelAt, EndsLine, Bullet, StatusLabel;
    BulletText();
    var text, j := before + Bullet() + (quoted + after), |before| + 14;
    BulletRead(before, quoted + after);
    assert text[j..j + |quoted|] == quoted;
    assert forall k :: j <= k < j + |quoted| ==> text[k] == quoted[k - j];
    assert text[j + |quoted|] == after[0];
    LineEndIs(text, j, j + |quoted|);
  }

  // ---------- the migrated record, label by label ----------

  /** A migrated record, cut where its parts meet. */
  lemma {:induction false} Parts(text: string, row: Row, gate: string) returns (rest: string)
    ensures WithBlock(text, row, gate) == Head(text) + (Opening() + rest)
    ensures WithBlock(text, row, gate)
         == Head(text) + Opening() + Bullet() + (Quoted(IndexStatus(row)) + (Fields(row, gate) + Rest(text)))
  {
    hide Head, Opening, Bullet, Quoted, Fields, Rest, WithBlock, IndexStatus;
    WithBlockText(text, row, gate);
    rest := StatusLine(row) + (Fields(row, gate) + Rest(text));
    var h, o, b, q, f := Head(text), Opening(), Bullet(), Quoted(IndexStatus(row)), Fields(row, gate) + Rest(text);
    assert h + o + (b + q) + f == h + (o + ((b + q) + f));
    assert h + o + (b + q) + f == h + o + b + (q + f);
  }

  lemma {:induction false} HeadEnds(text: string)
    ensures Head(text) != [] ==> Head(text)[|Head(text)| - 1] == '\n'
  {
  }

  /** No label starts before the block, unless one does in the head. */
  lemma {:induction false} NothingBeforeBlock(head: string, rest: string, i: nat)
    requires head != [] ==> head[|head| - 1] == '\n'
    requires NoLabel(head) && i < |head| + |Opening()|
    ensures StateAt(head + (Opening() + rest), i).None?
  {
    hide Opening, SkipSpace;
    OpeningText();
    var text := head + (Opening() + rest);
    if i < |head| {
      if LabelAt(text, i) {
        LabelStaysInHead(head, Opening() + rest, i);
        assert false;
      }
    } else {
      assert text[i] == Opening()[i - |head|];
      assert Opening()[i - |head|] in Opening();
    }
  }

  lemma {:induction false} FindIs(m: (string, nat) -> Option<string>, text: string, i: nat, raw: string)
    requires i < |text| && m(text, i) == Some(raw) && forall k :: 0 <= k < i ==> m(text, k).None?
    ensures Find(m, text, 0) == Some(Signal(i, raw))
  {
    hide Find;
  }

  lemma {:induction false} ShownOnOneLine(raw: string)
    ensures forall c :: c in Quoted(NormalizeStatus(raw)) ==> !EndsLine(c)
  {
    var status := NormalizeStatus(raw);
    if status.Word? {
      NormalizedIsSettled(raw);
      hide NormalizeStatus, Lookup;
      forall c | c in status.text ensures !EndsLine(c) {
        assert PlainChar(c);
      }
    } else {
      hide NormalizeStatus, Lookup;
      var native := Show(NativeFunction);
      assert forall c :: c in native ==> !EndsLine(c);
    }
  }

  /** The printed status line is found where it was printed. */
  lemma {:induction false} PrintedLineStands(text: string, row: Row, gate: string)
    ensures StateAt(WithBlock(text, row, gate), |Head(text)| + |Opening()|) == Some(Quoted(IndexStatus(row)))
    ensures |Head(text)| + |Opening()| < |WithBlock(text, row, gate)|
  {
    var rest := Parts(text, row, gate);
    ShownOnOneLine(row.cell);
    NoSpace();
    var quoted, after := Quoted(IndexStatus(row)), Fields(row, gate) + Rest(text);
    assert quoted[0] == '`' && after[0] == '\n';
    hide IsSpace, IndexStatus, Head, Rest, Opening, WithBlock, Bullet, StateAt, Quoted, Fields;
    BulletText();
    StatusLineRead(Head(text) + Opening(), quoted, after);
  }

  /** Every migrated record is read from its state block. */
  lemma {:induction false} MigratedIsNormalized(text: string, row: Row, gate: string)
    ensures ExtractStatus(WithBlock(text, row, gate)).source == StateBlock
  {
    hide StateAt, WithBlock, NormalizeStatus, Head, Opening, Quoted;
    PrintedLineStands(text, row, gate);
  }

  lemma {:induction false} BeforeBlock(text: string, row: Row, gate: string, i: nat)
    requires NoLabel(Head(text)) && i < |Head(text)| + |Opening()|
    ensures StateAt(WithBlock(text, row, gate), i).None?
  {
    hide StateAt, WithBlock, IndexStatus, Head, Opening, Quoted, NoLabel, Bullet, Fields, Rest;
    var rest := Parts(text, row, gate);
    HeadEnds(text);
    NothingBeforeBlock(Head(text), rest, i);
  }

  /** Without a label at or before the heading, what is read is what was printed. */
  lemma {:induction false} PrintedStatusIsRead(text: string, row: Row, gate: string)
    requires NoLabel(Head(text))
    ensures ExtractStatus(WithBlock(text, row, gate))
         == Extracted(NormalizeStatus(Quoted(IndexStatus(row))), StateBlock)
  {
    hide StateAt, WithBlock, NormalizeStatus, IndexStatus, Head, Opening, Quoted, NoLabel, Find, Earliest;
    forall i: nat | i < |Head(text)| + |Opening()| ensures StateAt(WithBlock(text, row, gate), i).None? {
      BeforeBlock(text, row, gate, i);
    }
    PrintedLineStands(text, row, gate);
    FindIs(StateAt, WithBlock(text, row, gate), |Head(text)| + |Opening()|, Quoted(IndexStatus(row)));
  }

  lemma {:induction false} FirstWord(word: string, tail: string)
    requires Plain(word)
    ensures FirstPiece(Lower(word + [' '] + tail)) == word
  {
    PlainIdle(word);
    assert forall i :: 0 <= i < |word| ==> PlainChar(word[i]);
    assert Lower(word + [' '] + tail) == word + [' '] + Lower(tail);
    hide IsSpace, FirstPiece;
    NoSpace();
    FirstPieceEnds(word, ' ', Lower(tail));
  }

  ghost predicate NoMarks(s: string) { forall i :: 0 <= i < |s| ==> !IsMark(s[i]) }

  lemma {:induction false} LowerNoMarks(s: string)
    requires NoMarks(s)
    ensures NoMarks(Lower(s))
  {
  }

  lemma {:induction false} TokenOfFirstWord(word: string, tail: string)
    requires Plain(word) && NoMarks(word + [' '] + tail) && Trim(word + [' '] + tail) == word + [' '] + tail
    ensures Token(word + [' '] + tail) == word
  {
    var shown := word + [' '] + tail;
    FirstWord(word, tail);
    LowerNoMarks(shown);
    PlainIdle(word);
    hide IsSpace, Plain, Trim, Unmark, FirstPiece, StripStops, Lower, Dashed;
    UnmarkIdle(Lower(shown));
  }

  lemma {:induction false} TokenOfQuotedFirstWord(word: string, tail: string)
    requires Plain(word) && NoMarks(word + [' '] + tail)
    ensures Token("`" + (word + [' '] + tail) + "`") == word
  {
    var shown := word + [' '] + tail;
    FirstWord(word, tail);
    LowerNoMarks(shown);
    PlainIdle(word);
    assert Lower("`" + shown + "`") == "`" + Lower(shown) + "`";
    hide IsSpace, Plain, Trim, Unmark, FirstPiece, StripStops, Lower, Dashed;
    TrimQuoted(shown);
    UnmarkQuoted(Lower(shown));
  }

  lemma {:induction false} NativeText()
    ensures NoMarks("function" + [' '] + "Object() { [native code] }")
  {
    assert NoMarks("function") && NoMarks("Object() { [native code] }");
  }

  /** The word `constructor` is printed as program text and read back as something else. */
  lemma {:induction false} NativeFunctionIsMisread()
    ensures NormalizeStatus(Quoted(NativeFunction)) == Word("function")
  {
    NativeText();
    PlainWords();
    hide Token, Plain;
    TokenOfQuotedFirstWord("function", "Object() { [native code] }");
  }

  /** The word and its spellings are the only texts that find the inherited function. */
  lemma {:induction false} NativeExactly(raw: string)
    ensures NormalizeStatus(raw) == NativeFunction <==> Token(raw) == "constructor"
    ensures NormalizeStatus("constructor") == NativeFunction
  {
    PlainLetters("constructor");
    hide Plain, Token, Lookup;
    PlainToken("constructor");
    EmptyToken();
    NativeLookup(Token(raw));
    NativeLookup("constructor");
  }

  lemma {:induction false} NativeLookup(token: string)
    ensures Lookup(token) == NativeFunction <==> token == "constructor"
  {
    assert |"constructor"| == 11 && |"opened"| == 6 && |"reopened"| == 8 && |"fixed"| == 5 && |"fix"| == 3;
  }

  lemma {:induction false} EmptyToken()
    ensures Token("") == ""
  {
  }

  predicate Drifts(recordStatus: Status, indexStatus: Status) {
    recordStatus != UNKNOWN && indexStatus != UNKNOWN && recordStatus != indexStatus
  }

  /** A migrated record without an earlier label agrees with the index exactly if the
      first word of the index cell is not `constructor`. */
  lemma {:induction false} NoDriftAfterMigration(text: string, row: Row, gate: string)
    requires NoLabel(Head(text))
    ensures !Drifts(ExtractStatus(WithBlock(text, row, gate)).status, IndexStatus(row))
       <==> Token(row.cell) != "constructor"
    ensures Token(row.cell) != "constructor" ==> ExtractStatus(WithBlock(text, row, gate)).status == IndexStatus(row)
  {
    NativeExactly(row.cell);
    PrintedStatusIsRead(text, row, gate);
    NormalizedIsSettled(row.cell);
    hide ExtractStatus, NormalizeStatus, WithBlock, Head, NoLabel, Settled, Token;
    if IndexStatus(row).Word? {
      QuotedReadsBack(IndexStatus(row).text);
    } else {
      NativeFunctionIsMisread();
    }
  }

  /** The first label at or before the heading. */
  ghost predicate FirstLabel(head: string, i: nat) {
    i < |head| && LabelAt(head, i) && forall k :: 0 <= k < i ==> !LabelAt(head, k)
  }

  function BehindLabel(head: string, i: nat): nat
    requires LabelAt(head, i)
  {
    SkipSpace(head, SkipSpace(head, i + 1) + |StatusLabel()|)
  }

  /** What the first label in the head makes the parser read. */
  function HeadRaw(head: string, i: nat): string
    requires LabelAt(head, i)
  {
    var j := BehindLabel(head, i);
    if j < |head| then head[j..LineEnd(head, j)] else HeaderLine()
  }

  lemma {:induction false} LabelInWhole(head: string, tail: string, i: nat)
    requires i < |head| && LabelAt(head, i)
    ensures LabelAt(head + tail, i) && SkipSpace(head + tail, i + 1) == SkipSpace(head, i + 1)
  {
    hide IsSpace, StatusLabel;
    BulletText();
    var text, j := head + tail, SkipSpace(head, i + 1);
    assert forall k :: i < k <= j ==> head[k] == text[k];
    SkipSpaceIs(text, i + 1, j);
    assert head[j..j + |StatusLabel()|] == text[j..j + |StatusLabel()|];
  }

  lemma {:induction false} CaptureInHead(head: string, tail: string, p: nat)
    requires p <= |head| && head != [] && EndsLine(head[|head| - 1]) && SkipSpace(head, p) < |head|
    ensures Capture(head + tail, p) == Some(head[SkipSpace(head, p)..LineEnd(head, SkipSpace(head, p))])
  {
    hide IsSpace, EndsLine;
    var text, j := head + tail, SkipSpace(head, p);
    assert forall k :: p <= k <= j ==> head[k] == text[k];
    SkipSpaceIs(text, p, j);
    var e := LineEnd(head, j);
    assert forall k :: j <= k <= e ==> head[k] == text[k];
    LineEndIs(text, j, e);
    assert head[j..e] == text[j..e];
  }

  /** A label with something behind it in the head is read as it was before. */
  lemma {:induction false} FilledLabelRead(head: string, tail: string, i: nat)
    requires head != [] && head[|head| - 1] == '\n'
    requires i < |head| && LabelAt(head, i) && BehindLabel(head, i) < |head|
    ensures StateAt(head + tail, i) == Some(HeadRaw(head, i))
  {
    hide IsSpace, LabelAt, StatusLabel, Capture, SkipSpace, LineEnd;
    LabelInWhole(head, tail, i);
    CaptureInHead(head, tail, SkipSpace(head, i + 1) + |StatusLabel()|);
  }

  ghost predicate OneLine(s: string) { forall c :: c in s ==> !EndsLine(c) }

  lemma {:induction false} NoteOnOneLine()
    ensures OneLine(" (current truth \U{2014} read ")
    ensures OneLine("only this header to act; ") && OneLine("history below)")
  {
  }

  lemma {:induction false} HeaderLineText()
    ensures HeaderLine() != [] && HeaderLine()[0] == '#' && forall c :: c in HeaderLine() ==> !EndsLine(c)
  {
    NoteOnOneLine();
    assert OneLine(HEADER) && HEADER[0] == '#';
    hide EndsLine;
    var a, b, c := " (current truth \U{2014} read ", "only this header to act; ", "history below)";
    assert HeaderLine() == HEADER + (a + b + c);
  }

  lemma {:induction false} NextLineRead(head: string, line: string, after: string, p: nat)
    requires p <= |head| && SkipSpace(head, p) == |head| && after != [] && EndsLine(after[0])
    requires line != [] && !IsSpace(line[0]) && forall c :: c in line ==> !EndsLine(c)
    ensures Capture(head + (['\n'] + line + after), p) == Some(line)
  {
    hide IsSpace, EndsLine;
    NoSpace();
    var text, j := head + (['\n'] + line + after), |head| + 1;
    assert forall k :: p <= k < |head| ==> head[k] == text[k];
    assert text[|head|] == '\n' && text[j] == line[0];
    SkipSpaceIs(text, p, j);
    assert text[j..j + |line|] == line;
    assert text[j + |line|] == after[0];
    assert forall k :: j <= k < j + |line| ==> text[k] == line[k - j];
    LineEndIs(text, j, j + |line|);
  }

  /** A label with nothing behind it is read as the header of the block. */
  lemma {:induction false} BlankLabelRead(head: string, rest: string, i: nat)
    requires i < |head| && LabelAt(head, i) && BehindLabel(head, i) == |head|
    ensures StateAt(head + (Opening() + rest), i) == Some(HeadRaw(head, i))
  {
    hide IsSpace, LabelAt, StatusLabel, HeaderLine, Capture, SkipSpace, Opening;
    LabelInWhole(head, Opening() + rest, i);
    HeaderLineText();
    NoSpace();
    OpeningParts(rest);
    NextLineRead(head, HeaderLine(), ['\n', '\n'] + rest, SkipSpace(head, i + 1) + |StatusLabel()|);
  }

  lemma {:induction false} OpeningParts(rest: string)
    ensures Opening() + rest == ['\n'] + HeaderLine() + (['\n', '\n'] + rest)
  {
    hide HeaderLine;
  }

  lemma {:induction false} LabelRead(head: string, rest: string, i: nat)
    requires head != [] && head[|head| - 1] == '\n' && i < |head| && LabelAt(head, i)
    ensures StateAt(head + (Opening() + rest), i) == Some(HeadRaw(head, i))
  {
    hide HeadRaw, LabelAt, StateAt, Opening;
    if BehindLabel(head, i) < |head| {
      FilledLabelRead(head, Opening() + rest, i);
    } else {
      BlankLabelRead(head, rest, i);
    }
  }

  lemma {:induction false} NoStateBeforeFirst(head: string, rest: string, i: nat, k: nat)
    requires head != [] && head[|head| - 1] == '\n' && FirstLabel(head, i) && k < i
    ensures StateAt(head + (Opening() + rest), k).None?
  {
    hide Opening, LabelAt;
    OpeningText();
    if LabelAt(head + (Opening() + rest), k) {
      LabelStaysInHead(head, Opening() + rest, k);
      assert false;
    }
  }

  /** A label at or before the heading keeps deciding the status, whatever is printed. */
  lemma {:induction false} EarlierLabelDecides(text: string, row: Row, gate: string, i: nat)
    requires FirstLabel(Head(text), i)
    ensures ExtractStatus(WithBlock(text, row, gate)) == Extracted(NormalizeStatus(HeadRaw(Head(text), i)), StateBlock)
  {
    hide WithBlock, NormalizeStatus, IndexStatus, Head, Opening, Quoted, Find, Earliest, Bullet, Fields, Rest;
    hide HeadRaw, LabelAt, StateAt;
    var rest := Parts(text, row, gate);
    HeadEnds(text);
    var head, whole := Head(text), WithBlock(text, row, gate);
    LabelRead(head, rest, i);
    forall k: nat | k < i ensures StateAt(whole, k).None? {
      NoStateBeforeFirst(head, rest, i, k);
    }
    FindIs(StateAt, whole, i, HeadRaw(head, i));
  }

  lemma {:induction false} NoteNoMarks()
    ensures NoMarks(Note()) && Note() != [] && Note()[|Note()| - 1] == ')'
  {
    var a, b, c := " (current truth \U{2014} read ", "only this header to act; ", "history below)";
    assert NoMarks(a) && NoMarks(b) && NoMarks(c);
    assert c[|c| - 1] == ')';
    assert Note() == a + b + c;
  }

  lemma {:induction false} HeaderText()
    ensures NoMarks(HEADER) && HEADER == "###" + [' '] + "STATE"
  {
  }

  lemma {:induction false} HashPlain()
    ensures Plain("###") && !IsSpace(')')
  {
  }

  lemma {:induction false} HeaderNoMarks()
    ensures Plain("###") && NoMarks(HeaderLine()) && HeaderLine() == "###" + [' '] + ("STATE" + Note())
    ensures Trim(HeaderLine()) == HeaderLine()
  {
    hide Note, IsSpace, Plain, Trim;
    HashPlain();
    HeaderText();
    NoSpace();
    NoteNoMarks();
    assert HEADER + Note() == "###" + [' '] + ("STATE" + Note());
    TrimIdle(HeaderLine());
  }

  /** So a label left blank before the heading turns into a status that is none. */
  lemma {:induction false} BlankLabelMisread()
    ensures NormalizeStatus(HeaderLine()) == Word("###")
  {
    hide Token, Plain, NoMarks, Note, HeaderLine, Trim;
    HeaderNoMarks();
    TokenOfFirstWord("###", "STATE" + Note());
  }

  // ---------- the ledger ----------

  /** What a run does with a record. */
  datatype Fate = Migrates | Skips | LacksRow

  function FateOf(text: string, row: Option<Row>): Fate {
    if HasHeader(text) then Skips else if row.None? then LacksRow else Migrates
  }

  function MigratedText(text: string, row: Option<Row>, gate: string): string {
    if FateOf(text, row) == Migrates then WithBlock(text, row.value, gate) else text
  }

  function HasFate(records: map<string, string>, index: map<string, Row>, fate: Fate): string -> bool {
    (id: string) => id in records && FateOf(records[id], Get(index, id)) == fate
  }

  /** The records after a run over some of them. */
  function Migrated(
    records: map<string, string>, ids: seq<string>, index: map<string, Row>, gates: string -> string)
    : map<string, string>
  {
    map id | id in records ::
      if id in ids then MigratedText(records[id], Get(index, id), gates(records[id])) else records[id]
  }

  lemma {:induction false} MigratedStep(
    records: map<string, string>, ids: seq<string>, k: nat, index: map<string, Row>, gates: string -> string)
    requires k < |ids| && Distinct(ids) && ids[k] in records
    ensures var before := Migrated(records, ids[..k], index, gates);
            var text := records[ids[k]];
            && ids[k] in before
            && before[ids[k]] == text
            && Migrated(records, ids[..k + 1], index, gates)
               == before[ids[k] := MigratedText(text, Get(index, ids[k]), gates(text))]
  {
    hide MigratedText;
    assert ids[..k + 1] == ids[..k] + [ids[k]];
  }

  lemma {:induction false} FateStep(
    records: map<string, string>, ids: seq<string>, k: nat, index: map<string, Row>, fate: Fate)
    requires k < |ids| && ids[k] in records
    ensures var p := HasFate(records, index, fate);
            Filter(p, ids[..k + 1]) == if FateOf(records[ids[k]], Get(index, ids[k])) == fate then
                                         Filter(p, ids[..k]) + [ids[k]]
                                       else
                                         Filter(p, ids[..k])
  {
    hide FateOf;
    assert ids[..k + 1][..k] == ids[..k];
  }

  lemma {:induction false} NoStep(records: map<string, string>, index: map<string, Row>, gates: string -> string)
    ensures Migrated(records, [], index, gates) == records
    ensures forall fate :: Filter(HasFate(records, index, fate), []) == []
  {
  }

  class Ledger {
    var records: map<string, string>

    constructor (records: map<string, string>)
      ensures this.records == records
    {
      this.records := records;
    }

    /** Gives every record that lacks a state block one, seeded from its index row. */
    method MigrateState(ids: seq<string>, index: map<string, Row>, gates: string -> string)
      returns (migrated: seq<string>, skipped: seq<string>, noIndexRow: seq<string>)
      requires Distinct(ids) && forall i :: 0 <= i < |ids| ==> ids[i] in records
      modifies this
      ensures records == Migrated(old(records), ids, index, gates)
      ensures migrated == Filter(HasFate(old(records), index, Migrates), ids)
      ensures skipped == Filter(HasFate(old(records), index, Skips), ids)
      ensures noIndexRow == Filter(HasFate(old(records), index, LacksRow), ids)
    {
      hide HasHeader, WithBlock, Migrated, Filter, HasFate;
      NoStep(records, index, gates);
      migrated, skipped, noIndexRow := [], [], [];
      for k := 0 to |ids|
        invariant records == Migrated(old(records), ids[..k], index, gates)
        invariant migrated == Filter(HasFate(old(records), index, Migrates), ids[..k])
        invariant skipped == Filter(HasFate(old(records), index, Skips), ids[..k])
        invariant noIndexRow == Filter(HasFate(old(records), index, LacksRow), ids[..k])
      {
        var id := ids[k];
        MigratedStep(old(records), ids, k, index, gates);
        FateStep(old(records), ids, k, index, Migrates);
        FateStep(old(records), ids, k, index, Skips);
        FateStep(old(records), ids, k, index, LacksRow);
        var text := records[id];
        if HasHeader(text) {
          skipped := skipped + [id];
        } else if id !in index {
          noIndexRow := noIndexRow + [id];
        } else {
          records := records[id := WithBlock(text, index[id], gates(text))];
          migrated := migrated + [id];
        }
      }
      assert ids[..|ids|] == ids;
    }
  }

  /** A migrated record is skipped by the next run; the others meet the same fate again. */
  lemma {:induction false} SecondFate(text: string, row: Option<Row>, gate: string)
    ensures FateOf(MigratedText(text, row, gate), row)
         == if FateOf(text, row) == Migrates then Skips else FateOf(text, row)
  {
    hide HasHeader, WithBlock;
    if FateOf(text, row) == Migrates {
      MigratedHasHeader(text, row.value, gate);
    }
  }

  lemma {:induction false} NobodyLeft<T>(p: T -> bool, s: seq<T>)
    requires forall i :: 0 <= i < |s| ==> !p(s[i])
    ensures Filter(p, s) == []
  {
    if s != [] {
      NobodyLeft(p, s[..|s| - 1]);
    }
  }

  /** A second run, even with other gates, migrates nothing and changes nothing. */
  lemma {:induction false} SecondRunIsIdle(
    records: map<string, string>, ids: seq<string>, index: map<string, Row>,
    gates: string -> string, later: string -> string)
    ensures var after := Migrated(records, ids, index, gates);
            && Filter(HasFate(after, index, Migrates), ids) == []
            && Migrated(after, ids, index, later) == after
  {
    hide FateOf;
    var after := Migrated(records, ids, index, gates);
    forall id | id in records && id in ids ensures FateOf(after[id], Get(index, id)) != Migrates {
      SecondFate(records[id], Get(index, id), gates(records[id]));
    }
    NobodyLeft(HasFate(after, index, Migrates), ids);
  }

  // ---------- records against the index ----------

  const SETTLED := {"guarded", "fix-landed", "closed", "parked"}

  datatype Entry = Entry(
    status: Status, recordStatus: Status, indexStatus: Status, source: Source,
    normalized: bool, drift: bool, active: bool)

  /** The joined view of one record. */
  function EntryOf(text: Option<string>, row: Option<Row>): Entry {
    var record := if text.Some? then ExtractStatus(text.value) else Extracted(UNKNOWN, Missing);
    var indexStatus := if row.Some? then IndexStatus(row.value) else UNKNOWN;
    var status := if record.status != UNKNOWN then record.status else indexStatus;
    Entry(
      status, record.status, indexStatus, record.source, record.source == StateBlock,
      Drifts(record.status, indexStatus), !(status.Word? && status.text in SETTLED))
  }

  /** What the migration promises of a record afterwards. */
  predicate Clean(text: string, row: Option<Row>) {
    var entry := EntryOf(Some(text), row);
    entry.normalized && !entry.drift
  }

  /** When it keeps that promise, judged by the record and its row before the run. */
  ghost predicate CleanAfterwards(text: string, row: Option<Row>) {
    if FateOf(text, row) != Migrates then Clean(text, row)
    else if NoLabel(Head(text)) then Token(row.value.cell) != "constructor"
    else exists i :: FirstLabel(Head(text), i)
                     && !Drifts(NormalizeStatus(HeadRaw(Head(text), i)), IndexStatus(row.value))
  }

  lemma {:induction false} FirstLabelExists(head: string) returns (i: nat)
    requires !NoLabel(head)
    ensures FirstLabel(head, i)
  {
    hide LabelAt;
    i := 0;
    while !LabelAt(head, i)
      invariant i <= |head| && forall k :: 0 <= k < i ==> !LabelAt(head, k)
      decreases |head| - i
    {
      i := i + 1;
    }
  }

  lemma {:induction false} FirstLabelUnique(head: string, i: nat, j: nat)
    requires FirstLabel(head, i) && FirstLabel(head, j)
    ensures i == j
  {
    hide LabelAt;
  }

  /** After the run a record is read from its state block and agrees with the index
      exactly in these cases. */
  lemma {:induction false} CleanExactly(text: string, row: Option<Row>, gate: string)
    ensures Clean(MigratedText(text, row, gate), row) <==> CleanAfterwards(text, row)
  {
    hide ExtractStatus, WithBlock, HasHeader, NormalizeStatus, Head, LabelAt, HeadRaw, NoLabel, FirstLabel, Token;
    if FateOf(text, row) == Migrates {
      MigratedIsNormalized(text, row.value, gate);
      if NoLabel(Head(text)) {
        NoDriftAfterMigration(text, row.value, gate);
      } else {
        var i := FirstLabelExists(Head(text));
        EarlierLabelDecides(text, row.value, gate, i);
        forall j: nat | FirstLabel(Head(text), j) ensures i == j {
          FirstLabelUnique(Head(text), i, j);
        }
      }
    }
  }

  // ---------- the whole ledger ----------

  /** Every entry of the joined view, over records and rows alike, keeps the promise. */
  ghost predicate LedgerClean(records: map<string, string>, index: map<string, Row>) {
    forall id :: id in records.Keys + index.Keys ==>
      var entry := EntryOf(Get(records, id), Get(index, id));
      entry.normalized && !entry.drift
  }

  /** A row without a record is not normalized, and no migration mends that. */
  lemma {:induction false} RowWithoutRecord(
    records: map<string, string>, ids: seq<string>, index: map<string, Row>, gates: string -> string, id: string)
    requires id in index && id !in records
    ensures !LedgerClean(Migrated(records, ids, index, gates), index)
  {
    hide ExtractStatus, MigratedText;
    assert id in Migrated(records, ids, index, gates).Keys + index.Keys;
  }

  /** After a run over all records the whole view is normalized and free of drift exactly
      when every row has a record and every record meets its condition. */
  lemma {:induction false} LedgerCleanExactly(
    records: map<string, string>, ids: seq<string>, index: map<string, Row>, gates: string -> string)
    requires forall id :: id in records ==> id in ids
    ensures LedgerClean(Migrated(records, ids, index, gates), index)
       <==> index.Keys <= records.Keys && forall id :: id in records ==> CleanAfterwards(records[id], Get(index, id))
  {
    hide EntryOf, MigratedText, CleanAfterwards;
    var after := Migrated(records, ids, index, gates);
    forall id | id in records
      ensures Clean(after[id], Get(index, id)) <==> CleanAfterwards(records[id], Get(index, id))
      ensures after.Keys == records.Keys && Get(after, id) == Some(after[id])
    {
      CleanExactly(records[id], Get(index, id), gates(records[id]));
    }
    if id :| id in index && id !in records {
      RowWithoutRecord(records, ids, index, gates, id);
    }
    assert index.Keys <= records.Keys ==> records.Keys + index.Keys == records.Keys;
    if LedgerClean(after, index) {
      forall id | id in records ensures CleanAfterwards(records[id], Get(index, id)) {
        assert id in after.Keys + index.Keys;
      }
    }
  }

  /** The raw text of the status that a record is read by. */
  ghost predicate ReadFrom(text: string, raw: string) {
    || (exists i :: FirstState(text, i) && StateAt(text, i) == Some(raw))
    || (!HasState(text)
        && exists i :: FirstSignal(text, i) && (InlineAt(text, i) == Some(raw) || VerdictAt(text, i) == Some(raw)))
  }

  ghost predicate FirstState(text: string, i: nat) {
    i < |text| && StateAt(text, i).Some? && forall k :: 0 <= k < i ==> StateAt(text, k).None?
  }

  lemma {:induction false} ReadFromMeaning(text: string, raw: string)
    requires ReadFrom(text, raw)
    ensures ExtractStatus(text).status == NormalizeStatus(raw)
  {
    hide StateAt, InlineAt, VerdictAt, NormalizeStatus;
    EarliestSignalDecides(text);
    if HasState(text) {
      var i :| FirstState(text, i) && StateAt(text, i) == Some(raw);
      var state := Find(StateAt, text, 0).value;
      assert StateAt(text, state.position).Some?;
    } else {
      var i :| FirstSignal(text, i) && (InlineAt(text, i) == Some(raw) || VerdictAt(text, i) == Some(raw));
      NotBoth(text, i);
      assert SignalAt(text, i).Some?;
    }
  }

  lemma {:induction false} SettledMeaning(raw: string)
    ensures NormalizeStatus(raw).Word? && NormalizeStatus(raw).text in SETTLED
       <==> Token(raw) in {"guarded", "closed", "parked", "fix-landed", "fixed", "fix"}
  {
    hide NormalizeStatus, Token;
    StatusMeaning(raw, "guarded");
    StatusMeaning(raw, "closed");
    StatusMeaning(raw, "parked");
  }

  /** The index leaves an entry active: it has no row, or one that is not settled. */
  ghost predicate IndexLeavesActive(row: Option<Row>) {
    row.None? || Token(row.value.cell) !in {"guarded", "closed", "parked", "fix-landed", "fixed", "fix"}
  }

  lemma {:induction false} ActiveByIndex(row: Option<Row>)
    ensures (if row.Some? then !(IndexStatus(row.value).Word? && IndexStatus(row.value).text in SETTLED) else true)
       <==> IndexLeavesActive(row)
  {
    hide NormalizeStatus, Token;
    if row.Some? {
      SettledMeaning(row.value.cell);
    }
  }

  /** An entry is active by the word its record gives, where that says anything, and
      otherwise by the word of its row. */
  lemma {:induction false} ActiveExactly(text: string, row: Option<Row>, raw: string)
    requires ReadFrom(text, raw)
    ensures EntryOf(Some(text), row).active
       <==> if Token(raw) in {"", "unknown"} then IndexLeavesActive(row)
            else Token(raw) !in {"guarded", "closed", "parked", "fix-landed", "fixed", "fix"}
  {
    hide ReadFrom, ExtractStatus, NormalizeStatus, Token, IndexLeavesActive, Drifts;
    ReadFromMeaning(text, raw);
    StatusMeaning(raw, "");
    SettledMeaning(raw);
    ActiveByIndex(row);
  }

  /** The statuses of an entry, by the texts they are read from; a drift takes two known
      words that are not the same status. */
  lemma {:induction false} EntryExactly(text: string, row: Option<Row>, raw: string)
    requires ReadFrom(text, raw)
    ensures var entry := EntryOf(Some(text), row);
            && entry.recordStatus == NormalizeStatus(raw)
            && entry.indexStatus == (if row.Some? then NormalizeStatus(row.value.cell) else UNKNOWN)
            && entry.status == (if Token(raw) in {"", "unknown"} then entry.indexStatus else entry.recordStatus)
            && (entry.normalized <==> HasState(text))
            && (entry.drift <==> row.Some? && Token(raw) !in {"", "unknown"}
                                 && Token(row.value.cell) !in {"", "unknown"}
                                 && NormalizeStatus(raw) != NormalizeStatus(row.value.cell))
  {
    hide ReadFrom, ExtractStatus, NormalizeStatus, Token, HasState;
    ReadFromMeaning(text, raw);
    EarliestSignalDecides(text);
    StatusMeaning(raw, "");
    if row.Some? {
      StatusMeaning(row.value.cell, "");
    }
  }

  /** A record without any signal, like a missing record, leaves it to its row. */
  lemma {:induction false} ActiveUnread(text: Option<string>, row: Option<Row>)
    requires text.Some? ==> !HasState(text.value) && forall k :: 0 <= k < |text.value| ==> SignalAt(text.value, k).None?
    ensures EntryOf(text, row).active <==> IndexLeavesActive(row)
  {
    hide NormalizeStatus, Token, IndexLeavesActive, Drifts, SignalAt, HasState, StateAt, InlineAt, VerdictAt;
    if text.Some? {
      EarliestSignalDecides(text.value);
      assert ExtractStatus(text.value).status == UNKNOWN;
    }
    ActiveByIndex(row);
  }

  /** Where a clean entry has a row with a known status, that status is the one shown,
      and the settled statuses decide whether the entry is active. */
  lemma {:induction false} CleanShowsIndex(text: string, row: Row)
    requires Clean(text, Some(row)) && IndexStatus(row) != UNKNOWN
    ensures var entry := EntryOf(Some(text), Some(row));
            && entry.status == IndexStatus(row)
            && (entry.active <==> forall w :: w in SETTLED ==> IndexStatus(row) != Word(w))
  {
    hide ExtractStatus, NormalizeStatus;
  }
}
