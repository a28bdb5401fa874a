/** What the words of a predicate say: where it splits, which tokens it has and which tables those name. */
module PlanWords {
  import opened PlanModel

  // ---------------------------------------------------------------- and, or

  lemma AndExact(w: Word)
    ensures IsAnd(w) <==> |w| == 3 && w[0] in {'a', 'A'} && w[1] in {'n', 'N'} && w[2] in {'d', 'D'}
  {
    if |w| == 3 {
      LowerExact(w[0], 'a');
      LowerExact(w[1], 'n');
      LowerExact(w[2], 'd');
      assert IsAnd(w) <==> LowerChar(w[0]) == 'a' && LowerChar(w[1]) == 'n' && LowerChar(w[2]) == 'd';
    }
  }

  lemma OrExact(w: Word)
    ensures IsOr(w) <==> |w| == 2 && w[0] in {'o', 'O'} && w[1] in {'r', 'R'}
  {
    if |w| == 2 {
      LowerExact(w[0], 'o');
      LowerExact(w[1], 'r');
      assert IsOr(w) <==> LowerChar(w[0]) == 'o' && LowerChar(w[1]) == 'r';
    }
  }

  lemma LowerExact(c: char, lower: char)
    requires 'a' <= lower <= 'z'
    ensures LowerChar(c) == lower <==> c == lower || c == lower - 'a' + 'A'
  {
  }

  /** A predicate splits at every `and`, in whatever case, and nowhere else. */
  lemma {:induction false} SplitsAtAnd(run: seq<Word>, a: Predicate, w: Word, b: Predicate)
    requires IsAnd(w)
    ensures SplitAndFrom(run, a + [w] + b) == SplitAndFrom(run, a) + SplitAnd(b)
    decreases a
  {
    var whole := a + [w] + b;
    if a == [] {
      assert whole[1..] == b;
    } else {
      assert whole[1..] == a[1..] + [w] + b;
      if IsAnd(a[0]) {
        SplitsAtAnd([], a[1..], w, b);
      } else {
        SplitsAtAnd(run + [a[0]], a[1..], w, b);
      }
    }
  }

  // ---------------------------------------------------------------- tokens

  /** `w[i..j]` is a run of token characters that can be extended on neither side. */
  ghost predicate TokenAt(w: string, i: nat, j: nat) {
    && i < j <= |w|
    && (forall k :: i <= k < j ==> IsTokenChar(w[k]))
    && (i == 0 || !IsTokenChar(w[i - 1]))
    && (j == |w| || !IsTokenChar(w[j]))
  }

  ghost predicate TokenFrom(w: string, from: nat, token: string) {
    exists i: nat, j: nat :: from <= i && TokenAt(w, i, j) && token == w[i..j]
  }

  /** The tokens of a word are its maximal runs of token characters. */
  lemma TokensExact(w: string, token: string)
    ensures token in Tokens("", w) <==> TokenFrom(w, 0, token)
  {
    TokensFrom(w, 0, 0, token);
    assert w[0..0] == "" && w[0..] == w;
  }

  lemma {:induction false} TokensFrom(w: string, i: nat, k: nat, token: string)
    requires i <= k <= |w| && (i == 0 || !IsTokenChar(w[i - 1]))
    requires forall m :: i <= m < k ==> IsTokenChar(w[m])
    ensures token in Tokens(w[i..k], w[k..]) <==> TokenFrom(w, i, token)
    decreases |w| - k
  {
    if k == |w| {
      TokenEnds(w, i, k, token);
    } else {
      assert w[k..][0] == w[k] && w[k..][1..] == w[k + 1..];
      if IsTokenChar(w[k]) {
        assert w[i..k] + [w[k]] == w[i..k + 1];
        TokensFrom(w, i, k + 1, token);
      } else {
        assert w[k + 1..k + 1] == "";
        TokensFrom(w, k + 1, k + 1, token);
        TokenEnds(w, i, k, token);
        assert w[i..k] == "" <==> i == k;
      }
    }
  }

  /** A run that ends at `k` is the first token, and the others start behind it. */
  lemma TokenEnds(w: string, i: nat, k: nat, token: string)
    requires i <= k <= |w| && (i == 0 || !IsTokenChar(w[i - 1])) && (k < |w| ==> !IsTokenChar(w[k]))
    requires forall m :: i <= m < k ==> IsTokenChar(w[m])
    ensures TokenFrom(w, i, token) <==> (i < k && token == w[i..k]) || TokenFrom(w, k + 1, token)
  {
    if i < k {
      assert TokenAt(w, i, k);
    }
    forall a: nat, b: nat | i <= a && TokenAt(w, a, b)
      ensures (a == i < k && b == k) || k < a
    {
    }
  }

  // ---------------------------------------------------------------- table references

  /** The token is the table's name, or the name, a dot and more. */
  predicate NamedBy(token: string, t: string) {
    '.' !in t && (token == t || (|t| < |token| && token[..|t|] == t && token[|t|] == '.'))
  }

  lemma {:induction false} BeforeDotExact(token: string, t: string)
    ensures BeforeDot(token) == t <==> NamedBy(token, t)
  {
    if token == "" || token[0] == '.' {
    } else if t == "" {
      assert BeforeDot(token)[0] == token[0];
    } else {
      BeforeDotExact(token[1..], t[1..]);
      assert t == [t[0]] + t[1..] && token == [token[0]] + token[1..];
      NamedByTail(token, t);
    }
  }

  lemma NamedByTail(token: string, t: string)
    requires token != "" && t != "" && token[0] != '.'
    ensures NamedBy(token, t) <==> token[0] == t[0] && NamedBy(token[1..], t[1..])
  {
    assert t == [t[0]] + t[1..] && token == [token[0]] + token[1..];
    if |t| < |token| {
      assert token[..|t|] == [token[0]] + token[1..][..|t| - 1];
      assert token[..|t|][1..] == token[1..][..|t| - 1];
    }
  }

  /** A conjunct names a table exactly if a token of one of its words is the table's name, alone or
      before a dot. */
  lemma MentionsExact(c: Conjunct, t: string)
    ensures Mentions(c, t) <==> exists w, i: nat, j: nat :: w in c && TokenAt(w, i, j) && NamedBy(w[i..j], t)
  {
    if Mentions(c, t) {
      var token :| token in ConjunctTokens(c) && BeforeDot(token) == t;
      var w := WordOfToken(c, token);
      TokensExact(w, token);
      BeforeDotExact(token, t);
    }
    if w, i: nat, j: nat :| w in c && TokenAt(w, i, j) && NamedBy(w[i..j], t) {
      TokensExact(w, w[i..j]);
      TokenOfWord(c, w, w[i..j]);
      BeforeDotExact(w[i..j], t);
    }
  }

  lemma {:induction false} WordOfToken(c: Conjunct, token: string) returns (w: Word)
    requires token in ConjunctTokens(c)
    ensures w in c && token in Tokens("", w)
  {
    if token in Tokens("", c[0]) {
      w := c[0];
    } else {
      w := WordOfToken(c[1..], token);
    }
  }

  lemma {:induction false} TokenOfWord(c: Conjunct, w: Word, token: string)
    requires w in c && token in Tokens("", w)
    ensures token in ConjunctTokens(c)
  {
    if w != c[0] {
      assert w in c[1..];
      TokenOfWord(c[1..], w, token);
    }
  }

  // ---------------------------------------------------------------- tables

  function Scanned(plan: Plan): set<string> {
    match plan
    case Scan(table, _) => {table}
    case Filter(input, _) => Scanned(input)
    case Project(input, _) => Scanned(input)
    case Join(left, right, _) => Scanned(left) + Scanned(right)
    case Sort(input, _) => Scanned(input)
    case Aggregate(input, _, _) => Scanned(input)
    case Limit(input, _) => Scanned(input)
  }

  ghost predicate Distinct(names: seq<string>) {
    forall i, j :: 0 <= i < j < |names| ==> names[i] != names[j]
  }

  /** The table names of a plan are the tables it scans, each once. */
  lemma TableNamesExact(plan: Plan)
    ensures Distinct(TableNames(plan))
    ensures forall t :: t in TableNames(plan) <==> t in Scanned(plan)
  {
    NamesFrom(plan, []);
  }

  lemma {:induction false} NamesFrom(plan: Plan, out: seq<string>)
    requires Distinct(out)
    ensures Distinct(TableNamesFrom(plan, out))
    ensures forall t :: t in TableNamesFrom(plan, out) <==> t in out || t in Scanned(plan)
  {
    match plan
    case Scan(_, _) =>
    case Join(left, right, _) =>
      NamesFrom(left, out);
      NamesFrom(right, TableNamesFrom(left, out));
    case Filter(input, _) => NamesFrom(input, out);
    case Project(input, _) => NamesFrom(input, out);
    case Sort(input, _) => NamesFrom(input, out);
    case Aggregate(input, _, _) => NamesFrom(input, out);
    case Limit(input, _) => NamesFrom(input, out);
  }
}
