/**
 * The per-line search-engine rewrite of `checkInputFile`: a line the
 * pattern `.*search_engine="([^"]*)".*` matches as a whole has every
 * `search_engine="[^"]*"` in it replaced by `search_engine="X-correct"`,
 * where X is the captured value; other lines are left as they are.
 *
 * Both regular expressions are modelled exactly as `java.util.regex` runs
 * them: `.` matches any character but a line terminator, the leading `.*`
 * is greedy (so group 1 is the value of the last attribute the whole-line
 * match can use), and `replaceAll` replaces every occurrence, left to right.
 */
module SearchEngine {
  import opened Wrappers
  import opened Text
  import Lines

  /** The literal that starts both patterns. */
  const AttributeOpen: string := "search_engine=\""

  /** What the rewrite appends to the value. */
  const CorrectSuffix: string := "-correct"

  /** The characters Java's `.` does not match (no DOTALL, no UNIX_LINES). */
  predicate IsTerminator(c: char) {
    c == '\n' || c == '\r' || c == '\U{0085}' || c == '\U{2028}' || c == '\U{2029}'
  }

  predicate NoTerminator(s: string) {
    forall i | 0 <= i < |s| :: !IsTerminator(s[i])
  }

  /** Where `[^"]*` started at `j` stops: the first quote at or after `j`, or `|s|`. */
  function QuoteIndex(s: string, j: nat): (e: nat)
    requires j <= |s|
    ensures j <= e <= |s|
    ensures forall k | j <= k < e :: s[k] != '"'
    ensures e < |s| ==> s[e] == '"'
    decreases |s| - j
  {
    if j == |s| || s[j] == '"' then j else QuoteIndex(s, j + 1)
  }

  /** `search_engine="[^"]*"` matches `s` starting at `i`. */
  predicate AttributeAt(s: string, i: int) {
    StartsAt(s, i, AttributeOpen) && QuoteIndex(s, i + |AttributeOpen|) < |s|
  }

  /** The index just past the closing quote of the attribute at `i`. */
  function AttributeEnd(s: string, i: int): (e: nat)
    requires AttributeAt(s, i)
    ensures i + |AttributeOpen| < e <= |s|
  {
    QuoteIndex(s, i + |AttributeOpen|) + 1
  }

  /** The text between the quotes of the attribute at `i` (group 1). */
  function AttributeValue(s: string, i: int): string
    requires AttributeAt(s, i)
  {
    s[i + |AttributeOpen|..QuoteIndex(s, i + |AttributeOpen|)]
  }

  /** `.*search_engine="([^"]*)".*` matches all of `s`, with the attribute at `i`. */
  predicate WholeMatchAt(s: string, i: int) {
    0 <= i <= |s| && NoTerminator(s[..i]) && AttributeAt(s, i) &&
    NoTerminator(s[AttributeEnd(s, i)..])
  }

  /**
   * The attribute position a greedy leading `.*` settles on when it may
   * reach at most index `k`: the last whole-line match at or before `k`.
   */
  function LastMatch(s: string, k: nat): (r: Option<nat>)
    requires k <= |s|
    ensures r.Some? ==> r.value <= k && AttributeAt(s, r.value)
  {
    if WholeMatchAt(s, k) then Some(k)
    else if k == 0 then None
    else LastMatch(s, k - 1)
  }

  /** `LastMatch` finds the largest match position up to `k`, and finds none only when there is none. */
  lemma {:induction false} LastMatchIsLast(s: string, k: nat)
    requires k <= |s|
    ensures var r := LastMatch(s, k);
      (r.Some? ==> r.value <= k && WholeMatchAt(s, r.value) &&
                   forall j | r.value < j <= k :: !WholeMatchAt(s, j)) &&
      (r.None? ==> forall j | 0 <= j <= k :: !WholeMatchAt(s, j))
  {
    if !WholeMatchAt(s, k) && k > 0 {
      LastMatchIsLast(s, k - 1);
      var r := LastMatch(s, k - 1);
      assert LastMatch(s, k) == r;
      if r.Some? {
        forall j | r.value < j <= k ensures !WholeMatchAt(s, j) {
          if j == k {
          } else {
            assert j <= k - 1;
          }
        }
      }
    }
  }

  /** `se_matcher.matches() ? se_matcher.group(1) : null`. */
  function SearchEngineValue(line: string): Option<string> {
    match LastMatch(line, |line|)
    case None => None
    case Some(i) => Some(AttributeValue(line, i))
  }

  /** The replacement text the source builds from the captured value. */
  function Replacement(value: string): string {
    AttributeOpen + (value + CorrectSuffix) + "\""
  }

  /**
   * `s.replaceAll("search_engine=\"[^\"]*\"", r)` from index `j` on, with
   * `r` inserted literally: scanning left to right, each occurrence is
   * replaced and the scan resumes after it.
   */
  function ReplaceFrom(s: string, j: nat, r: string): string
    requires j <= |s|
    decreases |s| - j
  {
    if j == |s| then ""
    else if AttributeAt(s, j) then r + ReplaceFrom(s, AttributeEnd(s, j), r)
    else [s[j]] + ReplaceFrom(s, j + 1, r)
  }

  /**
   * The rewrite of one line with the captured value inserted literally:
   * what the source evidently intends, and what the sanitiser uses.
   */
  function RewriteLine(line: string): string {
    match SearchEngineValue(line)
    case None => line
    case Some(v) => ReplaceFrom(line, 0, Replacement(v))
  }

  // ---------------------------------------------------------------------
  // The rewrite as written: replaceAll reads its replacement as a template.
  // ---------------------------------------------------------------------

  /** The unchecked exceptions `Matcher.appendReplacement` throws. */
  datatype RegexException = IllegalArgument | IndexOutOfBounds

  function Prepend(p: string, r: Result<string, RegexException>): Result<string, RegexException> {
    match r
    case Ok(t) => Ok(p + t)
    case Err(e) => Err(e)
  }

  function SkipZeros(r: string): (t: string)
    ensures |t| <= |r|
  {
    if r != [] && r[0] == '0' then SkipZeros(r[1..]) else r
  }

  /**
   * How `replaceAll` reads a replacement string for a pattern without
   * capturing groups: `\c` stands for `c`; `$0`, with any further zeros,
   * for the matched text; `$` followed by another digit has no group to
   * refer to; `$` followed by anything else, or nothing, is illegal.
   */
  function Expand(r: string, matched: string): Result<string, RegexException>
    decreases |r|
  {
    if r == [] then Ok("")
    else if r[0] == '\\' then
      if |r| == 1 then Err(IllegalArgument) else Prepend([r[1]], Expand(r[2..], matched))
    else if r[0] == '$' then
      if |r| == 1 || !IsDigit(r[1]) then Err(IllegalArgument)
      else if r[1] != '0' then Err(IndexOutOfBounds)
      else Prepend(matched, Expand(SkipZeros(r[2..]), matched))
    else Prepend([r[0]], Expand(r[1..], matched))
  }

  /** `replaceAll` as the library runs it: the template is expanded at each occurrence. */
  function ReplaceFromAsWritten(s: string, j: nat, r: string): Result<string, RegexException>
    requires j <= |s|
    decreases |s| - j
  {
    if j == |s| then Ok("")
    else if AttributeAt(s, j) then
      match Expand(r, s[j..AttributeEnd(s, j)])
      case Err(e) => Err(e)
      case Ok(t) => Prepend(t, ReplaceFromAsWritten(s, AttributeEnd(s, j), r))
    else Prepend([s[j]], ReplaceFromAsWritten(s, j + 1, r))
  }

  /** Lines 265-268 of the node model exactly as written. */
  function RewriteLineAsWritten(line: string): Result<string, RegexException> {
    match SearchEngineValue(line)
    case None => Ok(line)
    case Some(v) => ReplaceFromAsWritten(line, 0, Replacement(v))
  }

  // ---------------------------------------------------------------------
  // Properties
  // ---------------------------------------------------------------------

  /** A text in which the template syntax of replacement strings does not occur. */
  predicate Plain(s: string) {
    forall i | 0 <= i < |s| :: s[i] != '$' && s[i] != '\\'
  }

  lemma {:induction false} ExpandPlain(r: string, matched: string)
    requires Plain(r)
    ensures Expand(r, matched) == Ok(r)
    decreases |r|
  {
    if r != [] {
      ExpandPlain(r[1..], matched);
      assert [r[0]] + r[1..] == r;
    }
  }

  lemma {:induction false} ReplaceAsWrittenPlain(s: string, j: nat, r: string)
    requires j <= |s| && Plain(r)
    ensures ReplaceFromAsWritten(s, j, r) == Ok(ReplaceFrom(s, j, r))
    decreases |s| - j
  {
    if j < |s| {
      if AttributeAt(s, j) {
        ExpandPlain(r, s[j..AttributeEnd(s, j)]);
        ReplaceAsWrittenPlain(s, AttributeEnd(s, j), r);
      } else {
        ReplaceAsWrittenPlain(s, j + 1, r);
      }
    }
  }

  /** When the captured value has no `$` and no `\`, the code as written does what is intended. */
  lemma AsWrittenAgreesOnPlainValues(line: string)
    requires SearchEngineValue(line).Some? ==> Plain(SearchEngineValue(line).value)
    ensures RewriteLineAsWritten(line) == Ok(RewriteLine(line))
  {
    if SearchEngineValue(line).Some? {
      var v := SearchEngineValue(line).value;
      assert Plain(Replacement(v)) by {
        PlainConstants();
      }
      ReplaceAsWrittenPlain(line, 0, Replacement(v));
    }
  }

  /** The fixed parts of the replacement contain no template syntax. */
  lemma PlainConstants()
    ensures Plain(AttributeOpen) && Plain(CorrectSuffix) && Plain("\"")
  {
  }

  /** `[^"]*` from `j` stops at the first quote. */
  lemma QuoteIndexIs(s: string, j: nat, e: nat)
    requires j <= e < |s| && s[e] == '"'
    requires forall k | j <= k < e :: s[k] != '"'
    ensures QuoteIndex(s, j) == e
  {
  }

  /** Outside attribute occurrences, replaceAll copies the text. */
  lemma {:induction false} ReplaceCopies(s: string, j: nat, k: nat, r: string)
    requires j <= k <= |s|
    requires forall m | j <= m < k :: !AttributeAt(s, m)
    ensures ReplaceFrom(s, j, r) == s[j..k] + ReplaceFrom(s, k, r)
    decreases k - j
  {
    if j < k {
      ReplaceSkips(s, j, r);
      ReplaceCopies(s, j + 1, k, r);
      ConsAppend(s[j], s[j + 1..k], ReplaceFrom(s, k, r));
      assert s[j..k] == [s[j]] + s[j + 1..k];
    }
  }

  /** replaceAll copies a character where no occurrence starts. */
  lemma ReplaceSkips(s: string, j: nat, r: string)
    requires j < |s| && !AttributeAt(s, j)
    ensures ReplaceFrom(s, j, r) == [s[j]] + ReplaceFrom(s, j + 1, r)
  {
  }

  /** The attribute written out at index |p| is where the whole-line pattern matches. */
  lemma SingleAttributeMatch(line: string, p: string, v: string, s: string)
    requires line == p + (AttributeOpen + v + "\"") + s
    requires forall k | 0 <= k < |v| :: v[k] != '"'
    requires NoTerminator(p) && NoTerminator(s)
    ensures AttributeAt(line, |p|) && AttributeEnd(line, |p|) == |line| - |s|
    ensures AttributeValue(line, |p|) == v
    ensures WholeMatchAt(line, |p|)
  {
    var i, a := |p|, |p| + |AttributeOpen|;
    var e := a + |v|;
    assert line == p + (AttributeOpen + (v + ("\"" + s)));
    assert line[i..i + |AttributeOpen|] == AttributeOpen;
    assert line[a..e] == v;
    assert line[e] == '"';
    QuoteIndexIs(line, a, e);
    assert line[..i] == p;
    assert line[e + 1..] == s;
  }

  /** `replaceAll` over a line whose only occurrence is at `i`. */
  lemma ReplaceSingle(line: string, i: nat, r: string)
    requires i <= |line| && AttributeAt(line, i)
    requires forall j | AttributeAt(line, j) :: j == i
    ensures ReplaceFrom(line, 0, r) == line[..i] + (r + line[AttributeEnd(line, i)..])
  {
    var e1 := AttributeEnd(line, i);
    ReplaceCopies(line, 0, i, r);
    ReplaceCopies(line, e1, |line|, r);
    ReplaceAtAttribute(line, i, r);
    assert line[0..i] == line[..i];
    assert line[e1..|line|] == line[e1..];
    assert line[e1..] + "" == line[e1..];
  }

  /**
   * The rewrite of a line with a single `search_engine="…"`: the value gets
   * "-correct" appended and everything around it is kept.
   */
  lemma RewriteSingleAttribute(line: string, p: string, v: string, s: string)
    requires line == p + (AttributeOpen + v + "\"") + s
    requires forall k | 0 <= k < |v| :: v[k] != '"'
    requires NoTerminator(p) && NoTerminator(s)
    requires forall j | AttributeAt(line, j) :: j == |p|
    ensures SearchEngineValue(line) == Some(v)
    ensures RewriteLine(line) == p + (Replacement(v) + s)
  {
    SingleAttributeMatch(line, p, v, s);
    OnlyMatchIsLast(line, |p|);
    ReplaceSingle(line, |p|, Replacement(v));
    SplitAround(line, p, AttributeOpen + v + "\"", s);
  }

  /**
   * A line with two attributes: the greedy `.*` captures the value of the
   * second, and `replaceAll` writes that value into both occurrences.
   */
  lemma RewriteTwoAttributes(line: string, p: string, a: string, m: string, b: string, s: string)
    requires line == p + (AttributeOpen + a + "\"") + m + (AttributeOpen + b + "\"") + s
    requires forall k | 0 <= k < |a| :: a[k] != '"'
    requires forall k | 0 <= k < |b| :: b[k] != '"'
    requires NoTerminator(p) && NoTerminator(a) && NoTerminator(m) && NoTerminator(b) && NoTerminator(s)
    requires forall j | AttributeAt(line, j) :: j == |p| || j == |p| + |AttributeOpen + a + "\""| + |m|
    ensures SearchEngineValue(line) == Some(b)
    ensures RewriteLine(line) == p + Replacement(b) + m + Replacement(b) + s
  {
    var i1, i2 := TwoAttributePositions(line, p, a, m, b, s);
    RewriteTwoAt(line, i1, i2);
    var e1, e2 := AttributeEnd(line, i1), AttributeEnd(line, i2);
    Congruence5(line[..i1], p, Replacement(b), line[e1..i2], m, line[e2..], s);
  }

  /** Where the two attributes of such a line sit, and the text around them. */
  lemma TwoAttributePositions(line: string, p: string, a: string, m: string, b: string, s: string)
    returns (i1: nat, i2: nat)
    requires line == p + (AttributeOpen + a + "\"") + m + (AttributeOpen + b + "\"") + s
    requires forall k | 0 <= k < |a| :: a[k] != '"'
    requires forall k | 0 <= k < |b| :: b[k] != '"'
    requires NoTerminator(p) && NoTerminator(a) && NoTerminator(m) && NoTerminator(b) && NoTerminator(s)
    requires forall j | AttributeAt(line, j) :: j == |p| || j == |p| + |AttributeOpen + a + "\""| + |m|
    ensures i1 < i2 <= |line| && AttributeAt(line, i1) && AttributeEnd(line, i1) <= i2 && WholeMatchAt(line, i2)
    ensures forall j | AttributeAt(line, j) :: j == i1 || j == i2
    ensures AttributeValue(line, i2) == b
    ensures line[..i1] == p && line[AttributeEnd(line, i1)..i2] == m && line[AttributeEnd(line, i2)..] == s
  {
    var first, second := AttributeOpen + a + "\"", AttributeOpen + b + "\"";
    i1, i2 := |p|, |p| + |first| + |m|;
    Regroup(line, p, first, m, second, s);
    assert AttributeAt(line, i1) && AttributeEnd(line, i1) == i1 + |first| by {
      AttributeNoTerminator(b);
      NoTerminatorAppend(m, second);
      NoTerminatorAppend(m + second, s);
      assert |m + second + s| == |line| - i1 - |first|;
      SingleAttributeMatch(line, p, a, m + second + s);
    }
    assert WholeMatchAt(line, i2) && AttributeEnd(line, i2) == |line| - |s| && AttributeValue(line, i2) == b by {
      AttributeNoTerminator(a);
      NoTerminatorAppend(p, first);
      NoTerminatorAppend(p + first, m);
      assert |p + first + m| == i2;
      SingleAttributeMatch(line, p + first + m, b, s);
    }
    SplitFive(line, p, first, m, second, s);
  }

  /**
   * The rewrite of a line whose attribute occurs exactly at `i1` and at
   * `i2`, the second a whole-line match: both become the second's value
   * with the suffix.
   */
  lemma RewriteTwoAt(line: string, i1: nat, i2: nat)
    requires i1 < i2 <= |line| && AttributeAt(line, i1) && AttributeEnd(line, i1) <= i2 && WholeMatchAt(line, i2)
    requires forall j | AttributeAt(line, j) :: j == i1 || j == i2
    ensures SearchEngineValue(line) == Some(AttributeValue(line, i2))
    ensures var r := Replacement(AttributeValue(line, i2));
      RewriteLine(line) == line[..i1] + r + line[AttributeEnd(line, i1)..i2] + r + line[AttributeEnd(line, i2)..]
  {
    LastAttributeIsCaptured(line, i2);
    ReplaceTwo(line, i1, i2, Replacement(AttributeValue(line, i2)));
  }

  /** The attribute text adds no line terminator to its value. */
  lemma AttributeNoTerminator(v: string)
    requires NoTerminator(v)
    ensures NoTerminator(AttributeOpen + v + "\"")
  {
    assert NoTerminator(AttributeOpen);
  }

  /** When the last occurrence of the attribute is a whole-line match, group 1 is its value. */
  lemma LastAttributeIsCaptured(line: string, i: nat)
    requires WholeMatchAt(line, i)
    requires forall j | AttributeAt(line, j) :: j <= i
    ensures SearchEngineValue(line) == Some(AttributeValue(line, i))
  {
    LastMatchIsLast(line, |line|);
    assert LastMatch(line, |line|) == Some(i);
  }

  /** `replaceAll` over a text holding exactly two occurrences, at `i1` and `i2`. */
  lemma ReplaceTwo(s: string, i1: nat, i2: nat, r: string)
    requires i1 < i2 <= |s| && AttributeAt(s, i1) && AttributeAt(s, i2) && AttributeEnd(s, i1) <= i2
    requires forall j | AttributeAt(s, j) :: j == i1 || j == i2
    ensures ReplaceFrom(s, 0, r) == s[..i1] + r + s[AttributeEnd(s, i1)..i2] + r + s[AttributeEnd(s, i2)..]
  {
    var e1, e2 := AttributeEnd(s, i1), AttributeEnd(s, i2);
    var tail := ReplaceFrom(s, i2, r);
    assert tail == r + s[e2..] by {
      ReplaceAtAttribute(s, i2, r);
      ReplaceCopies(s, e2, |s|, r);
      assert s[e2..|s|] + "" == s[e2..];
    }
    var middle := ReplaceFrom(s, i1, r);
    assert middle == (r + s[e1..i2]) + tail by {
      ReplaceAtAttribute(s, i1, r);
      ReplaceCopies(s, e1, i2, r);
      AppendAssoc(r, s[e1..i2], tail);
    }
    assert ReplaceFrom(s, 0, r) == s[..i1] + middle by {
      ReplaceCopies(s, 0, i1, r);
      assert s[0..i1] == s[..i1];
    }
    AppendFive(s[..i1], r, s[e1..i2], r, s[e2..]);
  }

  /** Java's `.` matches across a concatenation of texts it matches. */
  lemma NoTerminatorAppend(a: string, b: string)
    requires NoTerminator(a) && NoTerminator(b)
    ensures NoTerminator(a + b)
  {
  }

  /** The only whole-line match is the one the greedy prefix settles on. */
  lemma OnlyMatchIsLast(line: string, i: nat)
    requires WholeMatchAt(line, i)
    requires forall j | AttributeAt(line, j) :: j == i
    ensures SearchEngineValue(line) == Some(AttributeValue(line, i))
  {
    LastMatchIsLast(line, |line|);
    assert LastMatch(line, |line|) == Some(i);
  }

  lemma ReplaceAtAttribute(s: string, j: nat, r: string)
    requires j <= |s| && AttributeAt(s, j)
    ensures ReplaceFrom(s, j, r) == r + ReplaceFrom(s, AttributeEnd(s, j), r)
  {
  }

  /** A line without the attribute literal is emitted unchanged. */
  lemma RewriteWithoutAttribute(line: string)
    requires !Contains(line, AttributeOpen)
    ensures SearchEngineValue(line) == None
    ensures RewriteLine(line) == line
  {
    var m := LastMatch(line, |line|);
    LastMatchIsLast(line, |line|);
    if m.Some? {
      ContainsAt(line, m.value, AttributeOpen);
    }
  }

  /** In `search_engine="v"` with a quote-free `v`, the attribute at 0 is the only one. */
  lemma OnlyAttributeAtStart(line: string, v: string)
    requires line == AttributeOpen + v + "\""
    requires forall k | 0 <= k < |v| :: v[k] != '"'
    ensures forall j | AttributeAt(line, j) :: j == 0
  {
    assert forall k | 0 <= k < |AttributeOpen| - 1 :: AttributeOpen[k] != '"';
    forall j | AttributeAt(line, j) ensures j == 0 {
      var q := j + |AttributeOpen| - 1;
      assert line[q] == AttributeOpen[|AttributeOpen| - 1] == '"';
    }
  }

  /** A single-attribute line `search_engine="v"` is rewritten to `search_engine="v-correct"`. */
  lemma RewriteBareAttribute(v: string)
    requires forall k | 0 <= k < |v| :: v[k] != '"'
    requires NoTerminator(v)
    ensures SearchEngineValue(AttributeOpen + v + "\"") == Some(v)
    ensures RewriteLine(AttributeOpen + v + "\"") == Replacement(v)
  {
    var line := AttributeOpen + v + "\"";
    OnlyAttributeAtStart(line, v);
    assert line == "" + line + "";
    RewriteSingleAttribute(line, "", v, "");
    assert "" + (Replacement(v) + "") == Replacement(v);
  }

  /**
   * The rewrite is not idempotent: a second pass over a rewritten line
   * appends the suffix once more.
   */
  lemma RewriteTwiceTagsTwice(v: string)
    requires forall k | 0 <= k < |v| :: v[k] != '"'
    requires NoTerminator(v)
    ensures RewriteLine(AttributeOpen + v + "\"") == Replacement(v)
    ensures RewriteLine(RewriteLine(AttributeOpen + v + "\"")) == Replacement(v + CorrectSuffix)
  {
    RewriteBareAttribute(v);
    var w := v + CorrectSuffix;
    assert forall k | 0 <= k < |w| :: w[k] != '"' by {
      assert forall k | 0 <= k < |CorrectSuffix| :: CorrectSuffix[k] != '"';
    }
    assert NoTerminator(w) by {
      assert NoTerminator(CorrectSuffix);
    }
    RewriteBareAttribute(w);
  }

  /** Java's template reading of a text whose start has no template syntax. */
  lemma {:induction false} ExpandPlainPrefix(p: string, rest: string, matched: string)
    requires Plain(p)
    ensures Expand(p + rest, matched) == Prepend(p, Expand(rest, matched))
    decreases |p|
  {
    if p == [] {
      assert p + rest == rest;
      match Expand(rest, matched) {
        case Ok(t) => assert p + t == t;
        case Err(_) =>
      }
    } else {
      assert (p + rest)[0] == p[0];
      assert (p + rest)[1..] == p[1..] + rest;
      ExpandPlainPrefix(p[1..], rest, matched);
      match Expand(rest, matched) {
        case Ok(t) => assert [p[0]] + (p[1..] + t) == p + t;
        case Err(_) =>
      }
    }
  }

  /** The code as written on a single-attribute line: the replacement template is expanded once. */
  lemma AsWrittenBareAttribute(v: string)
    requires forall k | 0 <= k < |v| :: v[k] != '"'
    requires NoTerminator(v)
    ensures RewriteLineAsWritten(AttributeOpen + v + "\"")
         == Prepend(AttributeOpen, Expand((v + CorrectSuffix) + "\"", AttributeOpen + v + "\""))
  {
    var line := AttributeOpen + v + "\"";
    var r := Replacement(v);
    assert RewriteLineAsWritten(line) == ReplaceFromAsWritten(line, 0, r) by {
      RewriteBareAttribute(v);
    }
    assert ReplaceFromAsWritten(line, 0, r) == Expand(r, line) by {
      EmptyAround(line);
      SingleAttributeMatch(line, "", v, "");
      assert line[0..] == line;
      AsWrittenWholeLine(line, r);
    }
    var tail := (v + CorrectSuffix) + "\"";
    assert Expand(r, line) == Prepend(AttributeOpen, Expand(tail, line)) by {
      AppendAssoc(AttributeOpen, v + CorrectSuffix, "\"");
      PlainConstants();
      ExpandPlainPrefix(AttributeOpen, tail, line);
    }
  }

  /** `replaceAll` on a text that is a single occurrence. */
  lemma AsWrittenWholeLine(s: string, r: string)
    requires AttributeAt(s, 0) && AttributeEnd(s, 0) == |s|
    ensures ReplaceFromAsWritten(s, 0, r) == Expand(r, s[0..])
  {
    assert s[0..AttributeEnd(s, 0)] == s[0..];
    assert ReplaceFromAsWritten(s, |s|, r) == Ok("");
    match Expand(r, s[0..]) {
      case Ok(t) => assert t + "" == t;
      case Err(_) =>
    }
  }

  /** `\c` in a template stands for `c`. */
  lemma ExpandEscape(c: char, rest: string, matched: string)
    ensures Expand(['\\', c] + rest, matched) == Prepend([c], Expand(rest, matched))
  {
    assert (['\\', c] + rest)[2..] == rest;
  }

  /**
   * A captured value holding `$` followed by a non-digit: the intended
   * rewrite succeeds, but the code as written makes `replaceAll` throw.
   */
  lemma DollarValueThrows()
    ensures RewriteLine(AttributeOpen + "$" + "\"") == AttributeOpen + "$-correct" + "\""
    ensures RewriteLineAsWritten(AttributeOpen + "$" + "\"") == Err(IllegalArgument)
  {
    RewriteBareAttribute("$");
    AsWrittenBareAttribute("$");
    assert (("$" + CorrectSuffix) + "\"")[1] == '-';
  }

  /**
   * A captured value holding a backslash: the code as written drops it,
   * where the intended rewrite keeps it.
   */
  lemma BackslashValueDropped()
    ensures RewriteLine(AttributeOpen + "a\\b" + "\"") == AttributeOpen + "a\\b-correct" + "\""
    ensures RewriteLineAsWritten(AttributeOpen + "a\\b" + "\"") == Ok(AttributeOpen + "ab-correct" + "\"")
  {
    RewriteBareAttribute("a\\b");
    AsWrittenBareAttribute("a\\b");
    ExpandBackslashTemplate(AttributeOpen + "a\\b" + "\"");
    assert AttributeOpen + ("ab-correct" + "\"") == AttributeOpen + "ab-correct" + "\"";
  }

  lemma ExpandBackslashTemplate(m: string)
    ensures Expand(("a\\b" + CorrectSuffix) + "\"", m) == Ok("ab-correct" + "\"")
  {
    var rest := CorrectSuffix + "\"";
    var escaped := ['\\', 'b'] + rest;
    assert Expand(rest, m) == Ok(rest) by {
      PlainConstants();
      ExpandPlain(rest, m);
    }
    assert Expand(escaped, m) == Ok("b" + rest) by {
      ExpandEscape('b', rest, m);
    }
    assert Expand("a" + escaped, m) == Ok("a" + ("b" + rest)) by {
      ExpandPlainPrefix("a", escaped, m);
    }
    assert ("a\\b" + CorrectSuffix) + "\"" == "a" + escaped;
    assert "a" + ("b" + rest) == "ab-correct" + "\"";
  }

  /** A line that gains no line break from the rewrite, given one without. */
  lemma {:induction false} ReplaceKeepsNoBreak(s: string, j: nat, r: string)
    requires j <= |s| && Lines.NoBreak(s) && Lines.NoBreak(r)
    ensures Lines.NoBreak(ReplaceFrom(s, j, r))
    decreases |s| - j
  {
    if j < |s| {
      if AttributeAt(s, j) {
        ReplaceKeepsNoBreak(s, AttributeEnd(s, j), r);
      } else {
        ReplaceKeepsNoBreak(s, j + 1, r);
      }
    }
  }

  /** The rewrite never introduces a line break, so rewritten lines stay single lines. */
  lemma RewriteKeepsNoBreak(line: string)
    requires Lines.NoBreak(line)
    ensures Lines.NoBreak(RewriteLine(line))
  {
    if SearchEngineValue(line).Some? {
      LastMatchIsLast(line, |line|);
      var v := SearchEngineValue(line).value;
      assert Lines.NoBreak(v);
      assert Lines.NoBreak(Replacement(v));
      ReplaceKeepsNoBreak(line, 0, Replacement(v));
    }
  }

  // ---------------------------------------------------------------------
  // Proof helpers: regrouping concatenations for the solver
  // ---------------------------------------------------------------------

  lemma ConsAppend(c: char, a: string, b: string)
    ensures [c] + (a + b) == ([c] + a) + b
  {
  }

  lemma EmptyAround(s: string)
    ensures s == "" + s + ""
  {
  }

  lemma SplitAround(line: string, p: string, m: string, s: string)
    requires line == p + m + s
    ensures line[..|p|] == p && line[|line| - |s|..] == s
  {
  }

  lemma Congruence5(p0: string, p: string, r: string, m0: string, m: string, s0: string, s: string)
    requires p0 == p && m0 == m && s0 == s
    ensures p0 + r + m0 + r + s0 == p + r + m + r + s
  {
  }

  lemma Regroup(line: string, p: string, x: string, m: string, y: string, s: string)
    requires line == p + x + m + y + s
    ensures line == p + x + (m + y + s) && line == (p + x + m) + y + s
  {
  }

  lemma SplitFive(line: string, p: string, x: string, m: string, y: string, s: string)
    requires line == p + x + m + y + s
    ensures line[..|p|] == p && line[|p| + |x|..|p| + |x| + |m|] == m && line[|line| - |s|..] == s
  {
  }

  lemma AppendFive(a: string, b: string, c: string, d: string, e: string)
    ensures a + ((b + c) + (d + e)) == a + b + c + d + e
  {
  }
}
