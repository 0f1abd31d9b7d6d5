/**
  The regular expressions of the modem driver (bblogger.py:152-168) and
  `re.search` over them. Every pattern there is a chain of three kinds of
  piece: literal text, ` +` (one or more spaces) and `(\d+)` (one or more
  ASCII digits, captured). `MatchAt` is the greedy matcher; `Accepts` is the
  declarative reading of a pattern, against which the matcher is proved
  sound, maximal and, for the patterns whose runs cannot overrun the piece
  that follows them (`Deterministic`), complete.
 */
module Pattern {
  import opened Wrappers
  import opened Decimal

  datatype Token =
    | Lit(text: string)   // literal characters
    | Spaces              // ` +`
    | Digits              // `(\d+)`, a capture group

  /** A successful match: where it starts and ends, and the captured groups in order. */
  datatype Found = Found(start: nat, end: nat, groups: seq<string>)

  /** The characters a run token repeats; a literal repeats none. */
  predicate InRun(t: Token, c: char) {
    match t
    case Lit(_) => false
    case Spaces => c == ' '
    case Digits => IsDigit(c)
  }

  predicate AllInRun(t: Token, s: string) {
    forall k :: 0 <= k < |s| ==> InRun(t, s[k])
  }

  function Captures(pat: seq<Token>): nat {
    if pat == [] then 0 else (if pat[0].Digits? then 1 else 0) + Captures(pat[1..])
  }

  /** Where the longest run of `t` characters starting at `i` ends. */
  function RunEnd(t: Token, text: string, i: nat): (j: nat)
    requires i <= |text|
    ensures i <= j <= |text|
    ensures forall k :: i <= k < j ==> InRun(t, text[k])
    ensures j < |text| ==> !InRun(t, text[j])
    decreases |text| - i
  {
    if i < |text| && InRun(t, text[i]) then RunEnd(t, text, i + 1) else i
  }

  /**
    The greedy match of `pat` at position `i` of `text`: each run takes all
    the characters it can. A backtracking engine finds the same match for a
    `Deterministic` pattern (`MatchAtComplete`, `SearchIff`); for others it
    may still match where this returns `None`.
   */
  function MatchAt(pat: seq<Token>, text: string, i: nat): (r: Option<Found>)
    requires i <= |text|
    ensures r.Some? ==> r.value.start == i <= r.value.end <= |text|
    ensures r.Some? ==> |r.value.groups| == Captures(pat)
    ensures r.Some? ==> forall g :: 0 <= g < |r.value.groups| ==>
                          0 < |r.value.groups[g]| && IsDigits(r.value.groups[g])
    decreases |pat|
  {
    if pat == [] then Some(Found(i, i, []))
    else
      match pat[0]
      case Lit(l) =>
        if i + |l| <= |text| && text[i..i + |l|] == l then
          (match MatchAt(pat[1..], text, i + |l|)
           case None => None
           case Some(f) => Some(Found(i, f.end, f.groups)))
        else None
      case Spaces =>
        var j := RunEnd(Spaces, text, i);
        if j == i then None
        else
          (match MatchAt(pat[1..], text, j)
           case None => None
           case Some(f) => Some(Found(i, f.end, f.groups)))
      case Digits =>
        var j := RunEnd(Digits, text, i);
        if j == i then None
        else
          match MatchAt(pat[1..], text, j)
          case None => None
          case Some(f) => Some(Found(i, f.end, [text[i..j]] + f.groups))
  }

  /** `re.search`: the match at the leftmost position where there is one. */
  function Search(pat: seq<Token>, text: string): (r: Option<Found>)
    ensures r.Some? ==> r.value.start <= |text| && MatchAt(pat, text, r.value.start) == r
    ensures r.Some? ==> forall i :: 0 <= i < r.value.start ==> MatchAt(pat, text, i).None?
    ensures r.None? ==> forall i :: 0 <= i <= |text| ==> MatchAt(pat, text, i).None?
  {
    SearchFrom(pat, text, 0)
  }

  function SearchFrom(pat: seq<Token>, text: string, from: nat): (r: Option<Found>)
    requires from <= |text|
    ensures r.Some? ==> from <= r.value.start <= |text| && MatchAt(pat, text, r.value.start) == r
    ensures r.Some? ==> forall i :: from <= i < r.value.start ==> MatchAt(pat, text, i).None?
    ensures r.None? ==> forall i :: from <= i <= |text| ==> MatchAt(pat, text, i).None?
    decreases |text| - from
  {
    match MatchAt(pat, text, from)
    case Some(f) => Some(f)
    case None => if from == |text| then None else SearchFrom(pat, text, from + 1)
  }

  /**
    `s` as a whole is an instance of `pat` whose captures are `groups`: each
    literal appears verbatim, each ` +` covers some non-empty run of spaces and
    each `(\d+)` some non-empty run of digits.
   */
  ghost predicate Accepts(pat: seq<Token>, s: string, groups: seq<string>)
    decreases |pat|
  {
    if pat == [] then s == [] && groups == []
    else
      match pat[0]
      case Lit(l) => |l| <= |s| && s[..|l|] == l && Accepts(pat[1..], s[|l|..], groups)
      case Spaces =>
        exists k :: 1 <= k <= |s| && AllInRun(Spaces, s[..k]) && Accepts(pat[1..], s[k..], groups)
      case Digits =>
        && 0 < |groups|
        && 0 < |groups[0]| <= |s|
        && s[..|groups[0]|] == groups[0]
        && AllInRun(Digits, groups[0])
        && Accepts(pat[1..], s[|groups[0]|..], groups[1..])
  }

  /** Whether a run token can never swallow the first character the next token needs. */
  predicate Excludes(run: Token, next: Token) {
    match next
    case Lit(l) => l != [] && !InRun(run, l[0])
    case Spaces => run.Digits?
    case Digits => run.Spaces?
  }

  /**
    No literal is empty and no run is followed by a piece that could start
    with one of its characters. Then every run before the last is forced
    (`RunLength`), the greedy matcher succeeds wherever an instance starts
    (`MatchAtComplete`), and so its match is the one `re.search` returns.
    The last run may still be cut short by `Accepts`: it is greedy only by
    `MatchAtMaximal`.
   */
  predicate Deterministic(pat: seq<Token>) {
    && (forall t :: 0 <= t < |pat| && pat[t].Lit? ==> pat[t].text != [])
    && (forall t :: 0 <= t < |pat| - 1 && !pat[t].Lit? ==> Excludes(pat[t], pat[t + 1]))
  }

  /** The greedy match is a genuine instance of the pattern. */
  lemma {:induction false} MatchAtSound(pat: seq<Token>, text: string, i: nat)
    requires i <= |text| && MatchAt(pat, text, i).Some?
    ensures Accepts(pat, text[i..MatchAt(pat, text, i).value.end], MatchAt(pat, text, i).value.groups)
    decreases |pat|
  {
    if pat != [] {
      var f := MatchAt(pat, text, i).value;
      var j := if pat[0].Lit? then i + |pat[0].text| else RunEnd(pat[0], text, i);
      var rest := MatchAt(pat[1..], text, j).value;
      MatchAtSound(pat[1..], text, j);
      AcceptsStep(pat, text, i, j, rest.end, rest.groups, f.groups);
    }
  }

  /** One token of the greedy match: the head token covers `text[i..j]`, the rest `text[j..e]`. */
  lemma AcceptsStep(pat: seq<Token>, text: string, i: nat, j: nat, e: nat, rest: seq<string>, groups: seq<string>)
    requires pat != [] && i <= j <= e <= |text|
    requires pat[0].Lit? ==> text[i..j] == pat[0].text
    requires !pat[0].Lit? ==> i < j && forall n :: i <= n < j ==> InRun(pat[0], text[n])
    requires groups == if pat[0].Digits? then [text[i..j]] + rest else rest
    requires Accepts(pat[1..], text[j..e], rest)
    ensures Accepts(pat, text[i..e], groups)
  {
    var s := text[i..e];
    assert s[..j - i] == text[i..j];
    assert s[j - i..] == text[j..e];
    match pat[0]
    case Lit(l) =>
    case Spaces =>
      assert AllInRun(Spaces, s[..j - i]);
    case Digits =>
      assert groups[1..] == rest;
  }

  /** A pattern that ends in a run takes that whole run: the last capture is never cut short. */
  lemma {:induction false} MatchAtMaximal(pat: seq<Token>, text: string, i: nat)
    requires i <= |text| && MatchAt(pat, text, i).Some?
    requires pat != [] && !pat[|pat| - 1].Lit?
    ensures MatchAt(pat, text, i).value.end < |text| ==>
              !InRun(pat[|pat| - 1], text[MatchAt(pat, text, i).value.end])
    decreases |pat|
  {
    var last := pat[|pat| - 1];
    if |pat| > 1 {
      assert pat[1..][|pat[1..]| - 1] == last;
      match pat[0]
      case Lit(l) => MatchAtMaximal(pat[1..], text, i + |l|);
      case Spaces => MatchAtMaximal(pat[1..], text, RunEnd(Spaces, text, i));
      case Digits => MatchAtMaximal(pat[1..], text, RunEnd(Digits, text, i));
    }
  }

  /** What an instance of a pattern must start with. */
  lemma AcceptsStart(pat: seq<Token>, s: string, groups: seq<string>)
    requires pat != [] && Accepts(pat, s, groups)
    requires pat[0].Lit? ==> pat[0].text != []
    ensures 0 < |s|
    ensures pat[0].Lit? ==> s[0] == pat[0].text[0]
    ensures !pat[0].Lit? ==> InRun(pat[0], s[0])
  {
    match pat[0]
    case Lit(l) => assert s[..|l|][0] == s[0];
    case Spaces =>
      var k :| 1 <= k <= |s| && AllInRun(Spaces, s[..k]) && Accepts(pat[1..], s[k..], groups);
      assert s[..k][0] == s[0];
    case Digits => assert s[..|groups[0]|][0] == s[0];
  }

  /** A run of exactly `k` characters, stopped by one outside the run, is what `RunEnd` finds. */
  lemma RunEndIs(t: Token, text: string, i: nat, k: nat)
    requires i + k <= |text|
    requires forall n :: i <= n < i + k ==> InRun(t, text[n])
    requires i + k < |text| ==> !InRun(t, text[i + k])
    ensures RunEnd(t, text, i) == i + k
  {
  }

  /** An instance of a pattern splits into what its head token covers and an instance of the rest. */
  lemma AcceptsSplit(pat: seq<Token>, text: string, i: nat, j: nat, groups: seq<string>)
    returns (k: nat, rest: seq<string>)
    requires pat != [] && i <= j <= |text|
    requires Accepts(pat, text[i..j], groups)
    ensures i + k <= j
    ensures pat[0].Lit? ==> k == |pat[0].text| && text[i..i + k] == pat[0].text
    ensures !pat[0].Lit? ==> 1 <= k && forall n :: i <= n < i + k ==> InRun(pat[0], text[n])
    ensures Accepts(pat[1..], text[i + k..j], rest)
  {
    var s := text[i..j];
    match pat[0]
    case Lit(l) =>
      k, rest := |l|, groups;
      assert s[..k] == text[i..i + k];
    case Spaces =>
      var m :| 1 <= m <= |s| && AllInRun(Spaces, s[..m]) && Accepts(pat[1..], s[m..], groups);
      k, rest := m, groups;
      forall n | i <= n < i + k ensures InRun(pat[0], text[n]) {
        assert s[..m][n - i] == text[n];
      }
    case Digits =>
      k, rest := |groups[0]|, groups[1..];
      forall n | i <= n < i + k ensures InRun(pat[0], text[n]) {
        assert s[..k][n - i] == text[n];
      }
    assert s[k..] == text[i + k..j];
  }

  /**
    The run token at the head of a deterministic pattern covers exactly the
    run the greedy matcher finds, unless it is the last token.
   */
  lemma RunLength(pat: seq<Token>, text: string, i: nat, j: nat, k: nat, groups: seq<string>)
    requires i + k <= j <= |text|
    requires 1 < |pat| && !pat[0].Lit? && Deterministic(pat)
    requires forall n :: i <= n < i + k ==> InRun(pat[0], text[n])
    requires Accepts(pat[1..], text[i + k..j], groups)
    ensures RunEnd(pat[0], text, i) == i + k
  {
    assert pat[1..][0] == pat[1];
    assert Excludes(pat[0], pat[1]);
    assert pat[1].Lit? ==> pat[1].text != [];
    AcceptsStart(pat[1..], text[i + k..j], groups);
    assert text[i + k..j][0] == text[i + k];
    RunEndIs(pat[0], text, i, k);
  }

  lemma DeterministicTail(pat: seq<Token>)
    requires pat != [] && Deterministic(pat)
    ensures Deterministic(pat[1..])
  {
    forall t | 0 <= t < |pat[1..]| - 1 && !pat[1..][t].Lit?
      ensures Excludes(pat[1..][t], pat[1..][t + 1])
    {
      assert pat[1..][t] == pat[t + 1] && pat[1..][t + 1] == pat[t + 2];
    }
  }

  /** Deterministic patterns: wherever some instance starts, the greedy matcher succeeds. */
  lemma {:induction false} MatchAtComplete(pat: seq<Token>, text: string, i: nat, j: nat, groups: seq<string>)
    requires i <= j <= |text|
    requires Deterministic(pat)
    requires Accepts(pat, text[i..j], groups)
    ensures MatchAt(pat, text, i).Some?
    decreases |pat|
  {
    if pat != [] {
      DeterministicTail(pat);
      var k, rest := AcceptsSplit(pat, text, i, j, groups);
      if pat[0].Lit? || |pat| > 1 {
        if !pat[0].Lit? {
          RunLength(pat, text, i, j, k, rest);
        }
        MatchAtComplete(pat[1..], text, i + k, j, rest);
      } else {
        assert InRun(pat[0], text[i]);
      }
      MatchAtStep(pat, text, i, i + k);
    }
  }

  /** The greedy matcher succeeds once its head token fits and the rest matches after it. */
  lemma MatchAtStep(pat: seq<Token>, text: string, i: nat, j: nat)
    requires pat != [] && i <= j <= |text|
    requires pat[0].Lit? ==> text[i..j] == pat[0].text
    requires !pat[0].Lit? ==> i < |text| && InRun(pat[0], text[i])
    requires !pat[0].Lit? && 1 < |pat| ==> RunEnd(pat[0], text, i) == j
    requires pat[0].Lit? || 1 < |pat| ==> MatchAt(pat[1..], text, j).Some?
    ensures MatchAt(pat, text, i).Some?
  {
  }

  /** Text that cannot carry on a run of `t` characters just before it. */
  predicate RunStops(t: Token, post: string) {
    post != [] ==> !InRun(t, post[0])
  }

  /** A literal at the head adds no group. */
  lemma LitHead(pat: seq<Token>, l: string, text: string, i: nat)
    requires pat != [] && pat[0] == Lit(l) && i + |l| <= |text|
    requires text[i..i + |l|] == l
    requires MatchAt(pat[1..], text, i + |l|).Some?
    ensures MatchAt(pat, text, i) ==
              Some(Found(i, MatchAt(pat[1..], text, i + |l|).value.end, MatchAt(pat[1..], text, i + |l|).value.groups))
  {
  }

  /** A run of spaces at the head adds no group. */
  lemma SpacesHead(pat: seq<Token>, text: string, i: nat, j: nat)
    requires pat != [] && pat[0].Spaces? && i < j <= |text|
    requires RunEnd(pat[0], text, i) == j
    requires MatchAt(pat[1..], text, j).Some?
    ensures MatchAt(pat, text, i) == Some(Found(i, MatchAt(pat[1..], text, j).value.end, MatchAt(pat[1..], text, j).value.groups))
  {
  }

  /** A run of digits at the head becomes the first group. */
  lemma DigitsHead(pat: seq<Token>, text: string, i: nat, j: nat)
    requires pat != [] && pat[0].Digits? && i < j <= |text|
    requires RunEnd(pat[0], text, i) == j
    requires MatchAt(pat[1..], text, j).Some?
    ensures MatchAt(pat, text, i) == Some(Found(i, MatchAt(pat[1..], text, j).value.end, [text[i..j]] + MatchAt(pat[1..], text, j).value.groups))
  {
  }

  /** `re.search` takes a match at the very start of the text. */
  lemma SearchAtStart(pat: seq<Token>, text: string)
    requires MatchAt(pat, text, 0).Some?
    ensures Search(pat, text) == MatchAt(pat, text, 0)
  {
  }

  /**
    For a deterministic pattern, `Search` fails only when no stretch of the
    text is an instance of the pattern, and otherwise reports an instance.
   */
  lemma SearchIff(pat: seq<Token>, text: string)
    requires Deterministic(pat)
    ensures Search(pat, text).None? ==>
              forall i, j, groups :: 0 <= i <= j <= |text| ==> !Accepts(pat, text[i..j], groups)
    ensures Search(pat, text).Some? ==>
              Accepts(pat, text[Search(pat, text).value.start..Search(pat, text).value.end],
                      Search(pat, text).value.groups)
  {
    var r := Search(pat, text);
    if r.None? {
      forall i, j, groups | 0 <= i <= j <= |text| ensures !Accepts(pat, text[i..j], groups) {
        if Accepts(pat, text[i..j], groups) {
          MatchAtComplete(pat, text, i, j, groups);
        }
      }
    } else {
      MatchAtSound(pat, text, r.value.start);
    }
  }
}
