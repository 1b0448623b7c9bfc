/**
 * `Template` (tools/template.py): a text template whose placeholders are `{{ key }}`
 * (substituted as is) and `{{ "key" }}` (substituted quoted for a POSIX shell).
 *
 * The placeholder pattern is `{{`, optional white space, an optional `"`, a name that
 * starts with a letter or `_` and goes on with word characters, `.` and `-`, an optional
 * `"`, optional white space and `}}`. `MatchAt` reads it deterministically: each
 * optional or repeated piece is followed by something it cannot match, so a regular
 * expression engine that backtracks into it never finds another match.
 */
module Template {
  import opened Wrappers
  import opened Strings

  /** One piece of a parsed template: literal text, or a placeholder with its kind
      (0 plain, 1 shell-quoted). */
  datatype Part = Literal(text: string) | Var(key: string, kind: nat)

  /** One placeholder found at `start`, ending before `end`; `group` is the text of the
      pattern's capture group (the name with its quotes, if any). */
  datatype Found = Found(start: nat, end: nat, group: string)

  predicate IsNameStart(ch: char) {
    ('a' <= ch <= 'z') || ('A' <= ch <= 'Z') || ch == '_'
  }

  /** `[\w.-]` on ASCII text. */
  predicate IsNameChar(ch: char) {
    IsNameStart(ch) || ('0' <= ch <= '9') || ch == '.' || ch == '-'
  }

  /** Where the placeholder reader is after `{{`: before the name, after an opening
      quote (at `g0`), inside the name (the group starting at `g0`), or after the group
      `g0..g1`. */
  datatype Phase = Lead | Opened(g0: nat) | InName(g0: nat) | Trailing(g0: nat, g1: nat)

  predicate PhaseBefore(ph: Phase, j: nat) {
    match ph
    case Lead => true
    case Opened(g0) => g0 < j
    case InName(g0) => g0 < j
    case Trailing(g0, g1) => g0 < g1 <= j
  }

  function PhaseRank(ph: Phase): nat {
    match ph
    case Lead => 3
    case Opened(_) => 2
    case InName(_) => 1
    case Trailing(_, _) => 0
  }

  /** Reads the rest of a placeholder from `j` on, character by character: white space,
      an optional `"`, a name, an optional `"`, white space, `}}`. Yields the end of the
      placeholder and the capture group. */
  function Scan(s: string, j: nat, ph: Phase): (r: Option<(nat, string)>)
    requires j <= |s| && PhaseBefore(ph, j)
    ensures r.Some? ==> j + 2 <= r.value.0 <= |s| && s[r.value.0 - 2] == '}' && s[r.value.0 - 1] == '}'
    decreases |s| - j, PhaseRank(ph)
  {
    if j == |s| then None
    else
      var c := s[j];
      match ph
      case Lead =>
        if IsSpace(c) then Scan(s, j + 1, Lead)
        else if c == '"' then Scan(s, j + 1, Opened(j))
        else if IsNameStart(c) then Scan(s, j + 1, InName(j))
        else None
      case Opened(g0) =>
        if IsNameStart(c) then Scan(s, j + 1, InName(g0)) else None
      case InName(g0) =>
        if IsNameChar(c) then Scan(s, j + 1, ph)
        else if c == '"' then Scan(s, j + 1, Trailing(g0, j + 1))
        else Scan(s, j, Trailing(g0, j))
      case Trailing(g0, g1) =>
        if IsSpace(c) then Scan(s, j + 1, ph)
        else if c == '}' && j + 1 < |s| && s[j + 1] == '}' then Some((j + 2, s[g0..g1]))
        else None
  }

  /** The placeholder starting at `i`, if there is one. */
  function MatchAt(s: string, i: nat): (r: Option<Found>)
    requires i <= |s|
    ensures r.Some? ==> r.value.start == i && i + 4 <= r.value.end <= |s|
    ensures r.Some? ==> s[i] == '{' && s[i + 1] == '{' && s[r.value.end - 2] == '}' && s[r.value.end - 1] == '}'
  {
    if !(i + 1 < |s| && s[i] == '{' && s[i + 1] == '{') then None
    else
      match Scan(s, i + 2, Lead)
      case None => None
      case Some(eg) => Some(Found(i, eg.0, eg.1))
  }

  /** The leftmost placeholder at or after `from`, as one step of `finditer`. */
  function Search(s: string, from: nat): (r: Option<Found>)
    requires from <= |s|
    ensures r.Some? ==> from <= r.value.start && r.value.start + 4 <= r.value.end <= |s|
    decreases |s| - from
  {
    if from == |s| then None
    else if MatchAt(s, from).Some? then MatchAt(s, from)
    else Search(s, from + 1)
  }

  /** `Search` finds the leftmost placeholder: one starts where it reports, none
      starts before, and none at all when it reports nothing. */
  lemma {:induction false} SearchLeftmost(s: string, from: nat)
    requires from <= |s|
    ensures Search(s, from).Some? ==> MatchAt(s, Search(s, from).value.start) == Search(s, from)
    ensures Search(s, from).Some? ==> forall j :: from <= j < Search(s, from).value.start ==> MatchAt(s, j).None?
    ensures Search(s, from).None? ==> forall j :: from <= j <= |s| ==> MatchAt(s, j).None?
    decreases |s| - from
  {
    if from < |s| && MatchAt(s, from).None? {
      SearchLeftmost(s, from + 1);
    }
  }

  /** `group.startswith('"')`. */
  predicate OpensQuoted(group: string) {
    |group| > 0 && group[0] == '"'
  }

  /** `group.endswith('"')`. */
  predicate ClosesQuoted(group: string) {
    |group| > 0 && group[|group| - 1] == '"'
  }

  /** The key and kind a capture group stands for: quoted on both sides gives kind 1
      with the quotes stripped, on neither side kind 0, on one side an error. */
  function KeyOf(group: string): Result<(string, nat)> {
    var a := OpensQuoted(group);
    var b := ClosesQuoted(group);
    if a && b then Ok((if |group| >= 2 then group[1..|group| - 1] else "", 1))
    else if !a && !b then Ok((group, 0))
    else Err("invalid key " + group)
  }

  /** The three cases of a key: quoted on both sides (kind 1, quotes stripped), on
      neither (kind 0, as is), on one side only (an error). */
  lemma KeyOfCases(group: string)
    ensures OpensQuoted(group) && ClosesQuoted(group) && |group| >= 2 ==> KeyOf(group) == Ok((group[1..|group| - 1], 1))
    ensures !OpensQuoted(group) && !ClosesQuoted(group) ==> KeyOf(group) == Ok((group, 0))
    ensures OpensQuoted(group) != ClosesQuoted(group) ==> KeyOf(group).Err?
  {
  }

  /** A literal part for `text`, or nothing when it is empty. */
  function Lit(text: string): (r: seq<Part>)
    ensures r == [] <==> text == ""
  {
    if text == "" then [] else [Literal(text)]
  }

  /** Matches that follow one another: each starts at or after the end of the one
      before (the first at or after `from`), and all end by `n`. */
  predicate Chained(ms: seq<Found>, from: nat, n: nat) {
    (forall i :: 0 <= i < |ms| ==> from <= ms[i].start < ms[i].end <= n) &&
    (forall i, k :: 0 <= i < k < |ms| ==> ms[i].end <= ms[k].start)
  }

  /** `finditer(s)` from `from` on: each search resumes where the last match ended. */
  function FindAll(s: string, from: nat): (r: seq<Found>)
    requires from <= |s|
    ensures Chained(r, from, |s|)
    decreases |s| - from
  {
    match Search(s, from)
    case None => []
    case Some(f) => [f] + FindAll(s, f.end)
  }

  /** Where the text after the first `j` matches begins. */
  function After(ms: seq<Found>, j: nat): nat
    requires j <= |ms|
  {
    if j == 0 then 0 else ms[j - 1].end
  }

  /** The index of the first match whose key is quoted on one side only, or `|ms|`. */
  function FirstBadKey(ms: seq<Found>): (r: nat)
    ensures r <= |ms|
    ensures r < |ms| ==> KeyOf(ms[r].group).Err?
    ensures forall i :: 0 <= i < r ==> KeyOf(ms[i].group).Ok?
    decreases |ms|
  {
    if ms == [] then 0
    else if KeyOf(ms[0].group).Err? then 0
    else 1 + FirstBadKey(ms[1..])
  }

  /** A good key no later than the first bad key comes before it. */
  lemma FirstBadKeyPast(ms: seq<Found>, j: nat)
    requires j < |ms| && j <= FirstBadKey(ms) && KeyOf(ms[j].group).Ok?
    ensures j < FirstBadKey(ms)
  {
  }

  /** A bad key no earlier than the first bad key is the first bad key. */
  lemma {:induction false} FirstBadKeyAt(ms: seq<Found>, j: nat)
    requires j < |ms| && j <= FirstBadKey(ms) && KeyOf(ms[j].group).Err?
    ensures FirstBadKey(ms) == j
    decreases j
  {
    if j > 0 {
      assert ms[1..][j - 1] == ms[j];
      FirstBadKeyAt(ms[1..], j - 1);
    }
  }

  /** The placeholder of a match (nothing for a key quoted on one side only). */
  function VarOf(f: Found): seq<Part> {
    match KeyOf(f.group)
    case Ok(kk) => [Var(kk.0, kk.1)]
    case Err(_) => []
  }

  /** What one turn of the loop of `_parse` appends for the match `f`, the previous one
      having ended at `last`: the text between them (if not empty) and the placeholder. */
  function Piece(chunk: string, last: nat, f: Found): seq<Part>
    requires last <= f.start <= |chunk|
  {
    Lit(chunk[last..f.start]) + VarOf(f)
  }

  /** What the loop of `_parse` has appended after the first `j` matches of `chunk`. */
  function Done(chunk: string, ms: seq<Found>, j: nat): (r: seq<Part>)
    requires Chained(ms, 0, |chunk|) && j <= |ms|
    decreases j
  {
    if j == 0 then [] else Done(chunk, ms, j - 1) + Piece(chunk, After(ms, j - 1), ms[j - 1])
  }

  /** `_parse(chunk)`: the parts it appends, and whether it returns normally. It raises
      at the first key quoted on one side only, after the parts of the matches before. */
  function ParseChunk(chunk: string): (seq<Part>, bool) {
    var ms := FindAll(chunk, 0);
    var e := FirstBadKey(ms);
    if e < |ms| then (Done(chunk, ms, e), false)
    else (Done(chunk, ms, |ms|) + Lit(chunk[After(ms, |ms|)..]), true)
  }

  /** The reading loop of `__init__`: line after line until the first empty read. */
  function ParseLines(lines: seq<string>): (r: (seq<Part>, bool))
    decreases |lines|
  {
    if |lines| == 0 || lines[0] == "" then ([], true)
    else
      var p := ParseChunk(lines[0]);
      if !p.1 then p
      else
        var q := ParseLines(lines[1..]);
        (p.0 + q.0, q.1)
  }

  lemma ParseLinesStep(lines: seq<string>, i: nat)
    requires i < |lines| && lines[i] != ""
    ensures ParseLines(lines[i..]) ==
      (if ParseChunk(lines[i]).1 then (ParseChunk(lines[i]).0 + ParseLines(lines[i + 1..]).0, ParseLines(lines[i + 1..]).1)
       else ParseChunk(lines[i]))
  {
    assert lines[i..][0] == lines[i];
    assert lines[i..][1..] == lines[i + 1..];
  }

  lemma ParseLinesEnd(lines: seq<string>, i: nat)
    requires i <= |lines| && (i == |lines| || lines[i] == "")
    ensures ParseLines(lines[i..]) == ([], true)
  {
  }

  lemma AppendAssoc<T>(a: seq<T>, b: seq<T>, c: seq<T>)
    ensures a + (b + c) == (a + b) + c
  {
  }

  /** `vars[key] = vars.get(key, 0) + 1`. */
  function Bump(counts: map<string, nat>, key: string): map<string, nat> {
    counts[key := (if key in counts then counts[key] else 0) + 1]
  }

  /** `vars` as `_parse` keeps it: the number of placeholders seen per key. */
  function CountVars(ps: seq<Part>): map<string, nat>
    decreases |ps|
  {
    if ps == [] then map[]
    else
      var c := CountVars(ps[..|ps| - 1]);
      match ps[|ps| - 1]
      case Literal(_) => c
      case Var(k, _) => Bump(c, k)
  }

  lemma CountVarsSnoc(ps: seq<Part>, p: Part)
    ensures p.Literal? ==> CountVars(ps + [p]) == CountVars(ps)
    ensures p.Var? ==> CountVars(ps + [p]) == Bump(CountVars(ps), p.key)
  {
    assert (ps + [p])[..|ps|] == ps;
  }

  lemma CountVarsLit(ps: seq<Part>, text: string)
    ensures CountVars(ps + Lit(text)) == CountVars(ps)
  {
    if text == "" {
      assert ps + Lit(text) == ps;
    } else {
      CountVarsSnoc(ps, Literal(text));
    }
  }

  lemma CountVarsPiece(ps: seq<Part>, chunk: string, last: nat, f: Found)
    requires last <= f.start <= |chunk|
    ensures KeyOf(f.group).Ok? ==> CountVars(ps + Piece(chunk, last, f)) == Bump(CountVars(ps), KeyOf(f.group).value.0)
    ensures KeyOf(f.group).Err? ==> CountVars(ps + Piece(chunk, last, f)) == CountVars(ps)
  {
    var q := ps + Lit(chunk[last..f.start]);
    assert ps + Piece(chunk, last, f) == q + VarOf(f);
    CountVarsLit(ps, chunk[last..f.start]);
    match KeyOf(f.group)
    case Ok(kk) =>
      CountVarsSnoc(q, Var(kk.0, kk.1));
    case Err(_) =>
      assert q + VarOf(f) == q;
  }

  /** The keys of the placeholders of `ps`, with multiplicity. */
  function KeyBag(ps: seq<Part>): multiset<string>
    decreases |ps|
  {
    if ps == [] then multiset{}
    else (if ps[0].Var? then multiset{ps[0].key} else multiset{}) + KeyBag(ps[1..])
  }

  lemma {:induction false} KeyBagAppend(a: seq<Part>, b: seq<Part>)
    ensures KeyBag(a + b) == KeyBag(a) + KeyBag(b)
    decreases |a|
  {
    if a != [] {
      assert (a + b)[0] == a[0];
      assert (a + b)[1..] == a[1..] + b;
      KeyBagAppend(a[1..], b);
    } else {
      assert a + b == b;
    }
  }

  /** `vars[key]` is the number of placeholders with that key, and `vars` holds exactly
      the keys that occur. */
  lemma {:induction false} CountVarsCounts(ps: seq<Part>, k: string)
    ensures k in CountVars(ps) <==> KeyBag(ps)[k] > 0
    ensures k in CountVars(ps) ==> CountVars(ps)[k] == KeyBag(ps)[k]
    decreases |ps|
  {
    if ps != [] {
      var init := ps[..|ps| - 1];
      var p := ps[|ps| - 1];
      assert ps == init + [p];
      CountVarsCounts(init, k);
      KeyBagAppend(init, [p]);
      assert [p][1..] == [];
    }
  }

  /** Every placeholder of `ps` has its key in `vars`. */
  lemma {:induction false} KeysCounted(ps: seq<Part>, i: nat)
    requires i < |ps| && ps[i].Var?
    ensures ps[i].key in CountVars(ps)
    decreases |ps|
  {
    if i < |ps| - 1 {
      KeysCounted(ps[..|ps| - 1], i);
    }
  }

  /** `_parse` keeps no empty literal. */
  lemma {:induction false} DoneLiteralsNonEmpty(chunk: string, ms: seq<Found>, j: nat)
    requires Chained(ms, 0, |chunk|) && j <= |ms|
    ensures forall p :: p in Done(chunk, ms, j) && p.Literal? ==> p.text != ""
    decreases j
  {
    if j > 0 {
      DoneLiteralsNonEmpty(chunk, ms, j - 1);
    }
  }

  lemma ParseLiteralsNonEmpty(chunk: string)
    ensures forall p :: p in ParseChunk(chunk).0 && p.Literal? ==> p.text != ""
  {
    var ms := FindAll(chunk, 0);
    DoneLiteralsNonEmpty(chunk, ms, FirstBadKey(ms));
    DoneLiteralsNonEmpty(chunk, ms, |ms|);
  }

  /** Text with no `{{` in it is a single literal (or nothing, when empty). */
  lemma ParseNoPlaceholder(chunk: string)
    requires forall i :: 0 <= i < |chunk| - 1 ==> !(chunk[i] == '{' && chunk[i + 1] == '{')
    ensures ParseChunk(chunk) == (Lit(chunk), true)
  {
    assert chunk[0..] == chunk;
    SearchNone(chunk, 0);
    var ms := FindAll(chunk, 0);
    assert ms == [];
    assert FirstBadKey(ms) == 0 && After(ms, 0) == 0 && Done(chunk, ms, 0) == [];
    assert [] + Lit(chunk) == Lit(chunk);
  }

  lemma {:induction false} SearchNone(s: string, from: nat)
    requires from <= |s|
    requires forall i :: from <= i < |s| - 1 ==> !(s[i] == '{' && s[i + 1] == '{')
    ensures Search(s, from).None?
    decreases |s| - from
  {
    if from < |s| {
      SearchNone(s, from + 1);
    }
  }

  /** `shlex.quote`'s safe characters: ASCII word characters and `@%+=:,./-`. */
  predicate SafeChar(ch: char) {
    ('a' <= ch <= 'z') || ('A' <= ch <= 'Z') || ('0' <= ch <= '9') ||
    ch == '_' || ch == '@' || ch == '%' || ch == '+' || ch == '=' || ch == ':' ||
    ch == ',' || ch == '.' || ch == '/' || ch == '-'
  }

  predicate AllSafe(s: string) {
    forall i :: 0 <= i < |s| ==> SafeChar(s[i])
  }

  /** `s.replace("'", "'\"'\"'")`. */
  function EscapeQuotes(s: string): (r: string)
    ensures |r| >= |s|
    decreases |s|
  {
    if s == "" then ""
    else (if s[0] == '\'' then "'\"'\"'" else [s[0]]) + EscapeQuotes(s[1..])
  }

  /** `shlex.quote`. */
  function ShellQuote(s: string): (r: string)
    ensures r == s <==> s != "" && AllSafe(s)
  {
    if s == "" then "''"
    else if AllSafe(s) then s
    else "'" + EscapeQuotes(s) + "'"
  }

  /** The first index at or after `j` holding `c`, or -1. */
  function IndexFrom(s: string, j: nat, c: char): (r: int)
    requires j <= |s|
    ensures r == -1 || j <= r < |s|
    ensures r == -1 ==> forall m :: j <= m < |s| ==> s[m] != c
    ensures r >= 0 ==> s[r] == c && forall m :: j <= m < r ==> s[m] != c
    decreases |s| - j
  {
    if j == |s| then -1 else if s[j] == c then j else IndexFrom(s, j + 1, c)
  }

  predicate PlainInDoubleQuotes(s: string) {
    forall i :: 0 <= i < |s| ==> s[i] != '$' && s[i] != '`' && s[i] != '\\'
  }

  /** How a POSIX shell reads one word made of safe characters, single-quoted runs and
      double-quoted runs without expansions; `None` for anything else. */
  function ShellWord(w: string): (r: Option<string>)
    decreases |w|
  {
    if w == "" then Some("")
    else if w[0] == '\'' || w[0] == '"' then
      var j := IndexFrom(w, 1, w[0]);
      if j < 0 || (w[0] == '"' && !PlainInDoubleQuotes(w[1..j])) then None
      else
        match ShellWord(w[j + 1..])
        case None => None
        case Some(rest) => Some(w[1..j] + rest)
    else if SafeChar(w[0]) then
      match ShellWord(w[1..])
      case None => None
      case Some(rest) => Some([w[0]] + rest)
    else None
  }

  lemma {:induction false} EscapeAppend(a: string, b: string)
    ensures EscapeQuotes(a + b) == EscapeQuotes(a) + EscapeQuotes(b)
    decreases |a|
  {
    if a != "" {
      assert (a + b)[0] == a[0] && (a + b)[1..] == a[1..] + b;
      EscapeAppend(a[1..], b);
      var h := if a[0] == '\'' then "'\"'\"'" else [a[0]];
      assert EscapeQuotes(a + b) == h + EscapeQuotes(a[1..] + b);
      assert EscapeQuotes(a) == h + EscapeQuotes(a[1..]);
    } else {
      assert a + b == b;
    }
  }

  lemma {:induction false} EscapeNoQuote(a: string)
    requires forall i :: 0 <= i < |a| ==> a[i] != '\''
    ensures EscapeQuotes(a) == a
    decreases |a|
  {
    if a != "" {
      assert a[0] != '\'';
      EscapeNoQuote(a[1..]);
      assert EscapeQuotes(a) == [a[0]] + EscapeQuotes(a[1..]);
      assert a == [a[0]] + a[1..];
    }
  }

  /** A safe string reads as itself. */
  lemma {:induction false} ShellWordSafe(s: string)
    requires AllSafe(s)
    ensures ShellWord(s) == Some(s)
    decreases |s|
  {
    if s != "" {
      assert AllSafe(s[1..]) by {
        forall i | 0 <= i < |s[1..]| ensures SafeChar(s[1..][i]) {
          assert s[1..][i] == s[i + 1];
        }
      }
      ShellWordSafe(s[1..]);
      assert SafeChar(s[0]);
      assert s[0] != '\'' && s[0] != '"';
      assert ShellWord(s) == Some([s[0]] + s[1..]);
      assert s == [s[0]] + s[1..];
    }
  }

  /** A single-quoted escaped string reads back as the string. */
  lemma {:induction false} ShellWordEscaped(s: string)
    ensures ShellWord("'" + EscapeQuotes(s) + "'") == Some(s)
    decreases |s|
  {
    var q := IndexFrom(s, 0, '\'');
    if q < 0 {
      EscapeNoQuote(s);
      NoQuoteWord(s);
    } else {
      EscapeSplit(s, q);
      ShellWordEscaped(s[q + 1..]);
      QuoteBreak(s[..q], "'" + EscapeQuotes(s[q + 1..]) + "'", s[q + 1..]);
    }
  }

  /** The escaped word around the first quote of `s`, at `q`. */
  lemma EscapeSplit(s: string, q: nat)
    requires q < |s| && s[q] == '\'' && forall m :: 0 <= m < q ==> s[m] != '\''
    ensures forall m :: 0 <= m < |s[..q]| ==> s[..q][m] != '\''
    ensures s == s[..q] + ("'" + s[q + 1..])
    ensures "'" + EscapeQuotes(s) + "'" == "'" + s[..q] + "'" + ("\"'\"" + ("'" + EscapeQuotes(s[q + 1..]) + "'"))
  {
    var a := s[..q];
    var b := s[q + 1..];
    assert s == a + ("'" + b);
    EscapeNoQuote(a);
    EscapeAppend(a, "'" + b);
    assert ("'" + b)[1..] == b;
    var e := EscapeQuotes(b);
    assert EscapeQuotes("'" + b) == "'\"'\"'" + e;
    assert EscapeQuotes(s) == a + ("'\"'\"'" + e);
    QuoteRegroup(a, e);
  }

  lemma QuoteRegroup(a: string, e: string)
    ensures "'" + (a + ("'\"'\"'" + e)) + "'" == "'" + a + "'" + ("\"'\"" + ("'" + e + "'"))
  {
    assert "'\"'\"'" == "'" + "\"'\"" + "'";
  }

  lemma NoQuoteWord(s: string)
    requires forall m :: 0 <= m < |s| ==> s[m] != '\''
    ensures ShellWord("'" + s + "'") == Some(s)
  {
    var w := "'" + s + "'";
    assert w[|s| + 2..] == "" && w[1..|s| + 1] == s;
    QuotedRun(w, |s| + 1, "");
    assert s + "" == s;
  }

  /** A quote written as `'"'"'` between two single-quoted runs. */
  lemma QuoteBreak(a: string, w2: string, b: string)
    requires forall m :: 0 <= m < |a| ==> a[m] != '\''
    requires ShellWord(w2) == Some(b)
    ensures ShellWord("'" + a + "'" + ("\"'\"" + w2)) == Some(a + ("'" + b))
  {
    DoubleQuotedQuote(w2, b);
    SingleQuotedRun(a, "\"'\"" + w2, "'" + b);
  }

  /** `"'"` reads as a single quote. */
  lemma DoubleQuotedQuote(w2: string, b: string)
    requires ShellWord(w2) == Some(b)
    ensures ShellWord("\"'\"" + w2) == Some("'" + b)
  {
    var w1 := "\"'\"" + w2;
    assert w1[3..] == w2 && w1[1..2] == "'";
    QuotedRun(w1, 2, b);
  }

  /** A single-quoted run without quotes reads as its contents. */
  lemma SingleQuotedRun(a: string, w1: string, rest: string)
    requires forall m :: 0 <= m < |a| ==> a[m] != '\''
    requires ShellWord(w1) == Some(rest)
    ensures ShellWord("'" + a + "'" + w1) == Some(a + rest)
  {
    var w := "'" + a + "'" + w1;
    assert w[|a| + 2..] == w1 && w[1..|a| + 1] == a;
    QuotedRun(w, |a| + 1, rest);
  }

  /** One quoted run at the head of a word, up to the closing quote at `j`. */
  lemma QuotedRun(w: string, j: nat, rest: string)
    requires 1 <= j < |w| && (w[0] == '\'' || w[0] == '"') && w[j] == w[0]
    requires forall m :: 1 <= m < j ==> w[m] != w[0]
    requires w[0] == '"' ==> PlainInDoubleQuotes(w[1..j])
    requires ShellWord(w[j + 1..]) == Some(rest)
    ensures ShellWord(w) == Some(w[1..j] + rest)
  {
    IndexFromSkip(w, 1, j, w[0]);
  }

  lemma IndexFromSkip(s: string, j: nat, k: nat, c: char)
    requires j <= k < |s| && s[k] == c
    requires forall m :: j <= m < k ==> s[m] != c
    ensures IndexFrom(s, j, c) == k
    decreases k - j
  {
    if j < k {
      IndexFromSkip(s, j + 1, k, c);
    }
  }

  /** Quoting round-trips: the shell reads `shlex.quote(s)` back as `s`. */
  lemma ShellQuoteRoundTrip(s: string)
    ensures ShellWord(ShellQuote(s)) == Some(s)
  {
    if s == "" {
      var w := "''";
      assert ShellQuote(s) == w;
      assert IndexFrom(w, 1, '\'') == 1;
      assert w[1..1] == "" && w[2..] == "";
      assert ShellWord(w[2..]) == Some("");
      assert ShellWord(w) == Some(w[1..1] + "");
      assert w[1..1] + "" == s;
    } else if AllSafe(s) {
      ShellWordSafe(s);
    } else {
      ShellWordEscaped(s);
    }
  }

  /** The text a part renders to, given the cached values. */
  function PartText(p: Part, cache: map<string, string>): string
    requires p.Var? ==> p.key in cache
  {
    match p
    case Literal(text) => text
    case Var(key, kind) => if kind == 1 then ShellQuote(cache[key]) else cache[key]
  }

  predicate KeysCached(ps: seq<Part>, cache: map<string, string>) {
    forall i :: 0 <= i < |ps| && ps[i].Var? ==> ps[i].key in cache
  }

  /** What the write loop of `render_into` writes for `ps`. */
  function Rendered(ps: seq<Part>, cache: map<string, string>): (r: string)
    requires KeysCached(ps, cache)
    decreases |ps|
  {
    if ps == [] then "" else Rendered(ps[..|ps| - 1], cache) + PartText(ps[|ps| - 1], cache)
  }

  /** Rendering a concatenation renders the pieces one after the other. */
  lemma {:induction false} RenderedAppend(a: seq<Part>, b: seq<Part>, cache: map<string, string>)
    requires KeysCached(a, cache) && KeysCached(b, cache)
    ensures KeysCached(a + b, cache)
    ensures Rendered(a + b, cache) == Rendered(a, cache) + Rendered(b, cache)
    decreases |b|
  {
    KeysCachedAppend(a, b, cache);
    if b != [] {
      var ab := a + b;
      var b' := b[..|b| - 1];
      var last := b[|b| - 1];
      KeysCachedPrefix(b, cache);
      RenderedAppend(a, b', cache);
      DropLastAppend(a, b);
      RenderedSnoc(ab, cache);
      RenderedSnoc(b, cache);
      AppendAssoc(Rendered(a, cache), Rendered(b', cache), PartText(last, cache));
    } else {
      assert a + b == a;
    }
  }

  lemma DropLastAppend<T>(a: seq<T>, b: seq<T>)
    requires b != []
    ensures (a + b)[..|a + b| - 1] == a + b[..|b| - 1] && (a + b)[|a + b| - 1] == b[|b| - 1]
  {
  }

  /** The last part of a rendering comes last. */
  lemma RenderedSnoc(ps: seq<Part>, cache: map<string, string>)
    requires ps != [] && KeysCached(ps, cache)
    ensures KeysCached(ps[..|ps| - 1], cache)
    ensures Rendered(ps, cache) == Rendered(ps[..|ps| - 1], cache) + PartText(ps[|ps| - 1], cache)
  {
    KeysCachedPrefix(ps, cache);
  }

  lemma KeysCachedAppend(a: seq<Part>, b: seq<Part>, cache: map<string, string>)
    requires KeysCached(a, cache) && KeysCached(b, cache)
    ensures KeysCached(a + b, cache)
  {
    forall i | 0 <= i < |a + b| && (a + b)[i].Var?
      ensures (a + b)[i].key in cache
    {
      if i >= |a| {
        assert (a + b)[i] == b[i - |a|];
      }
    }
  }

  lemma KeysCachedPrefix(b: seq<Part>, cache: map<string, string>)
    requires b != [] && KeysCached(b, cache)
    ensures KeysCached(b[..|b| - 1], cache)
  {
    var b' := b[..|b| - 1];
    forall i | 0 <= i < |b'| && b'[i].Var?
      ensures b'[i].key in cache
    {
      assert b'[i] == b[i];
    }
  }

  /** A template with no placeholder renders as its own text. */
  lemma RenderNoPlaceholder(chunk: string, cache: map<string, string>)
    requires forall i :: 0 <= i < |chunk| - 1 ==> !(chunk[i] == '{' && chunk[i + 1] == '{')
    ensures KeysCached(ParseChunk(chunk).0, cache)
    ensures Rendered(ParseChunk(chunk).0, cache) == chunk
  {
    ParseNoPlaceholder(chunk);
    RenderLit(chunk, cache);
  }

  lemma RenderLit(text: string, cache: map<string, string>)
    ensures KeysCached(Lit(text), cache) && Rendered(Lit(text), cache) == text
  {
    if text != "" {
      assert Lit(text)[..0] == [];
    }
  }

  class Template {
    var parts: seq<Part>
    var vars: map<string, nat>

    ghost predicate Valid()
      reads this
    {
      vars == CountVars(parts)
    }

    constructor Empty()
      ensures Valid() && parts == []
    {
      parts := [];
      vars := map[];
    }

    /** `_parse`: appends the literal gaps and the placeholders of `chunk` in order,
        counting each placeholder's key; `ok` false where it raises `ValueError` on a key
        quoted on one side only, after what came before that placeholder. */
    method Parse(chunk: string) returns (ok: bool)
      requires Valid()
      modifies this
      ensures Valid()
      ensures parts == old(parts) + ParseChunk(chunk).0 && ok == ParseChunk(chunk).1
    {
      ok := ParseMatches(chunk, FindAll(chunk, 0));
    }

    /** The loop of `_parse` over the matches `ms` of `chunk`. */
    method ParseMatches(chunk: string, ms: seq<Found>) returns (ok: bool)
      requires Valid() && Chained(ms, 0, |chunk|)
      modifies this
      ensures Valid()
      ensures FirstBadKey(ms) < |ms| ==> !ok && parts == old(parts) + Done(chunk, ms, FirstBadKey(ms))
      ensures FirstBadKey(ms) == |ms| ==> ok && parts == old(parts) + Done(chunk, ms, |ms|) + Lit(chunk[After(ms, |ms|)..])
    {
      var last: nat := 0;
      var j := 0;
      while j < |ms|
        invariant j <= |ms| && last == After(ms, j)
        invariant j <= FirstBadKey(ms)
        invariant parts == old(parts) + Done(chunk, ms, j)
        invariant Valid()
      {
        var stop := ParseTurn(chunk, ms, j, last, old(parts));
        if stop {
          return false;
        }
        last := ms[j].end;
        j := j + 1;
      }
      AddSuffix(chunk, ms, old(parts));
      ok := true;
    }

    /** One turn of the loop of `_parse`: stop at a key quoted on one side only, else
        append the match's piece. */
    method ParseTurn(chunk: string, ms: seq<Found>, j: nat, last: nat, ghost base: seq<Part>) returns (stop: bool)
      requires Valid() && Chained(ms, 0, |chunk|) && j < |ms| && j <= FirstBadKey(ms) && last == After(ms, j)
      requires parts == base + Done(chunk, ms, j)
      modifies this
      ensures Valid()
      ensures stop ==> FirstBadKey(ms) == j && parts == old(parts)
      ensures !stop ==> j < FirstBadKey(ms) && parts == base + Done(chunk, ms, j + 1)
    {
      var kk := KeyOf(ms[j].group);
      if kk.Err? {
        FirstBadKeyAt(ms, j);
        return true;
      }
      FirstBadKeyPast(ms, j);
      AddPiece(chunk, ms, j, last, kk.value, base);
      stop := false;
    }

    /** The text after the last match is appended, if not empty. */
    method AddSuffix(chunk: string, ms: seq<Found>, ghost base: seq<Part>)
      requires Valid() && Chained(ms, 0, |chunk|) && parts == base + Done(chunk, ms, |ms|)
      modifies this
      ensures Valid() && parts == base + Done(chunk, ms, |ms|) + Lit(chunk[After(ms, |ms|)..])
    {
      var last := After(ms, |ms|);
      assert |ms| > 0 ==> ms[|ms| - 1].end <= |chunk|;
      var suffix := chunk[last..];
      CountVarsLit(parts, suffix);
      parts := parts + Lit(suffix);
    }

    /** A match with a well-formed key: the text before it and its placeholder are
        appended, and its key counted. */
    method AddPiece(chunk: string, ms: seq<Found>, j: nat, last: nat, kk: (string, nat), ghost base: seq<Part>)
      requires Valid() && Chained(ms, 0, |chunk|) && j < |ms| && last == After(ms, j)
      requires KeyOf(ms[j].group) == Ok(kk) && parts == base + Done(chunk, ms, j)
      modifies this
      ensures Valid() && parts == base + Done(chunk, ms, j + 1)
    {
      var f := ms[j];
      var piece := Lit(chunk[last..f.start]) + [Var(kk.0, kk.1)];
      assert piece == Piece(chunk, last, f);
      AppendAssoc(base, Done(chunk, ms, j), piece);
      CountVarsPiece(parts, chunk, last, f);
      parts := parts + piece;
      vars := Bump(vars, kk.0);
    }

    /** The reading loop of `__init__` over a file's lines. */
    method ParseAll(lines: seq<string>) returns (ok: bool)
      requires Valid()
      modifies this
      ensures Valid()
      ensures parts == old(parts) + ParseLines(lines).0 && ok == ParseLines(lines).1
    {
      ghost var total := ParseLines(lines);
      assert lines[0..] == lines;
      var i := 0;
      while i < |lines| && lines[i] != ""
        invariant i <= |lines| && Valid()
        invariant old(parts) + total.0 == parts + ParseLines(lines[i..]).0
        invariant total.1 == ParseLines(lines[i..]).1
      {
        ok := ParseLine(lines, i);
        if !ok {
          return;
        }
        i := i + 1;
      }
      ParseLinesEnd(lines, i);
      ok := true;
    }

    /** One pass of the reading loop: the parts of line `i` are appended, and the
        rest of the lines remain to be read exactly when it parsed. */
    method ParseLine(lines: seq<string>, i: nat) returns (ok: bool)
      requires Valid() && i < |lines| && lines[i] != ""
      modifies this
      ensures Valid()
      ensures ok ==> (old(parts) + ParseLines(lines[i..]).0 == parts + ParseLines(lines[i + 1..]).0 &&
                      ParseLines(lines[i..]).1 == ParseLines(lines[i + 1..]).1)
      ensures !ok ==> parts == old(parts) + ParseLines(lines[i..]).0 && !ParseLines(lines[i..]).1
    {
      ghost var next := ParseLines(lines[i + 1..]);
      ghost var step := ParseChunk(lines[i]);
      ParseLinesStep(lines, i);
      ghost var before := parts;
      ok := Parse(lines[i]);
      if ok {
        AppendAssoc(before, step.0, next.0);
      }
    }

    /** `render_into`. `values(k)` is `str(variables[k])`, or `None` where the variable
        is `None`. With any counted key unset it writes nothing and returns false;
        otherwise it writes every part in order, shell-quoting kind-1 values. */
    method RenderInto(values: string -> Option<string>) returns (ok: bool, written: string)
      requires Valid()
      ensures ok <==> forall k :: k in vars ==> values(k).Some?
      ensures !ok ==> written == ""
      ensures ok ==> KeysCached(parts, map k | k in vars :: values(k).value) &&
                     written == Rendered(parts, map k | k in vars :: values(k).value)
    {
      var cache;
      ok, cache := CacheValues(values);
      if !ok {
        return false, "";
      }
      assert KeysCached(parts, cache) by {
        forall i | 0 <= i < |parts| && parts[i].Var?
          ensures parts[i].key in cache
        {
          KeysCounted(parts, i);
        }
      }
      written := WriteParts(parts, cache);
    }

    /** The first loop of `render_into`: the value of every counted key, or `false` at
        the first one that is unset. */
    method CacheValues(values: string -> Option<string>) returns (ok: bool, cache: map<string, string>)
      ensures ok <==> forall k :: k in vars ==> values(k).Some?
      ensures ok ==> cache == map k | k in vars :: values(k).value
    {
      cache := map[];
      var remaining := vars.Keys;
      while remaining != {}
        invariant remaining <= vars.Keys
        invariant forall k :: k in vars && k !in remaining ==> values(k).Some?
        invariant cache == map k | k in vars && k !in remaining :: values(k).value
        decreases remaining
      {
        var k :| k in remaining;
        var value := values(k);
        if value.None? {
          return false, map[];
        }
        cache := cache[k := value.value];
        remaining := remaining - {k};
      }
      assert cache == map k | k in vars :: values(k).value;
      ok := true;
    }
  }

  /** The second loop of `render_into`: every part in order. */
  method WriteParts(parts: seq<Part>, cache: map<string, string>) returns (written: string)
    requires KeysCached(parts, cache)
    ensures written == Rendered(parts, cache)
  {
    written := "";
    var i := 0;
    while i < |parts|
      invariant i <= |parts|
      invariant KeysCached(parts[..i], cache)
      invariant written == Rendered(parts[..i], cache)
    {
      assert parts[..i + 1][..i] == parts[..i];
      written := written + PartText(parts[i], cache);
      i := i + 1;
    }
    assert parts[..i] == parts;
  }

  /** `Template(template_file, template)`: `file` holds the lines of a given file (or
      stream), `template` the text. `Err` where the constructor raises `ValueError`:
      neither a file nor a non-empty text, or a key quoted on one side only. */
  method NewTemplate(file: Option<seq<string>>, template: Option<string>) returns (r: Result<Template>)
    ensures file.None? && (template.None? || template.value == "") ==> r.Err?
    ensures file.Some? ==> (r.Ok? <==> ParseLines(file.value).1)
    ensures file.None? && template.Some? && template.value != "" ==> (r.Ok? <==> ParseChunk(template.value).1)
    ensures r.Ok? ==> fresh(r.value) && r.value.Valid()
    ensures r.Ok? && file.Some? ==> r.value.parts == ParseLines(file.value).0
    ensures r.Ok? && file.None? ==> r.value.parts == ParseChunk(template.value).0
  {
    var t := new Template.Empty();
    var ok: bool;
    if file.Some? {
      ok := t.ParseAll(file.value);
    } else if template.Some? && template.value != "" {
      ok := t.Parse(template.value);
    } else {
      return Err("template_file or template must be specified");
    }
    if !ok {
      return Err("invalid key");
    }
    r := Ok(t);
  }
}
