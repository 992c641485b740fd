/**
 * The recipient frequency count behind the address autocomplete
 * (`GetUniqueRecipients`, internal/db/emails.go): every `recipients` column is a
 * comma-separated list; each trimmed, non-empty address counts once per
 * occurrence, and the addresses are ranked by count (descending), then by
 * address (ascending, byte-wise).
 */
module Recipients {
  import opened Text

  /** The addresses that a list of comma-separated pieces contributes, in order. */
  function TokensOf(parts: seq<string>): seq<string> {
    if parts == [] then []
    else
      var t := TrimSpace(parts[|parts| - 1]);
      TokensOf(parts[..|parts| - 1]) + (if t != "" then [t] else [])
  }

  /** The addresses of one `recipients` column value, in order. */
  function Tokens(recipients: string): seq<string> {
    TokensOf(Split(recipients, ','))
  }

  /** The addresses of all rows, row by row. */
  function AllTokens(rows: seq<string>): seq<string> {
    if rows == [] then [] else AllTokens(rows[..|rows| - 1]) + Tokens(rows[|rows| - 1])
  }

  /** How many times `x` occurs as an address over all rows. */
  function Count(rows: seq<string>, x: string): nat {
    multiset(AllTokens(rows))[x]
  }

  /** The distinct addresses over all rows. */
  function TokenSet(rows: seq<string>): set<string> {
    set x | x in AllTokens(rows)
  }

  /** What an address taken from a recipients column looks like. */
  predicate CleanAddress(t: string) {
    t != "" && ',' !in t && !IsSpace(t[0]) && !IsSpace(t[|t| - 1])
  }

  /** Every address is non-empty, holds no comma and has no white space at either end. */
  lemma {:induction false} TokensOfClean(parts: seq<string>)
    requires forall k :: 0 <= k < |parts| ==> ',' !in parts[k]
    ensures forall t :: t in TokensOf(parts) ==> CleanAddress(t)
  {
    if parts != [] {
      var init := parts[..|parts| - 1];
      TokensOfClean(init);
      var last := parts[|parts| - 1];
      var t := TrimSpace(last);
      var a := LeadingSpaces(last);
      assert last[a..a + |t|] == t;
      forall c | c in t
        ensures c in last
      {
        var i :| 0 <= i < |t| && t[i] == c;
        assert last[a + i] == c;
      }
    }
  }

  lemma TokensClean(recipients: string)
    ensures forall t :: t in Tokens(recipients) ==> CleanAddress(t)
  {
    TokensOfClean(Split(recipients, ','));
  }

  /** Pieces that are already clean addresses are kept as they are. */
  lemma {:induction false} TokensOfCleanPieces(parts: seq<string>)
    requires forall k :: 0 <= k < |parts| ==> CleanAddress(parts[k])
    ensures TokensOf(parts) == parts
  {
    if parts != [] {
      var init := parts[..|parts| - 1];
      TokensOfCleanPieces(init);
      TrimSpaceOfTrimmed(parts[|parts| - 1]);
      assert init + [parts[|parts| - 1]] == parts;
    }
  }

  /** A list of clean addresses written out with commas is read back as it was. */
  lemma TokensOfJoin(addresses: seq<string>)
    requires |addresses| >= 1
    requires forall k :: 0 <= k < |addresses| ==> CleanAddress(addresses[k])
    ensures Tokens(Join(addresses, ",")) == addresses
  {
    SplitJoin(addresses, ',');
    TokensOfCleanPieces(addresses);
  }

  /** The map the counting loops build from a sequence of addresses:
      one increment per occurrence, starting from Go's zero value. */
  function Tally(s: seq<string>): map<string, int> {
    if s == [] then map[]
    else
      var m := Tally(s[..|s| - 1]);
      var x := s[|s| - 1];
      m[x := (if x in m then m[x] else 0) + 1]
  }

  /** The tally holds exactly the strings of `s`, each with its number of occurrences. */
  lemma {:induction false} TallyCounts(s: seq<string>)
    ensures forall x :: x in Tally(s) <==> x in multiset(s)
    ensures forall x :: x in Tally(s) ==> Tally(s)[x] == multiset(s)[x]
  {
    if s != [] {
      var init := s[..|s| - 1];
      TallyCounts(init);
      assert s == init + [s[|s| - 1]];
      assert multiset(s) == multiset(init) + multiset{s[|s| - 1]};
    }
  }

  lemma TallyStep(s: seq<string>, x: string)
    ensures Tally(s + [x]) == var m := Tally(s); m[x := (if x in m then m[x] else 0) + 1]
  {
    assert (s + [x])[..|s|] == s;
  }

  lemma TokensOfStep(parts: seq<string>, j: nat)
    requires j < |parts|
    ensures TokensOf(parts[..j + 1]) ==
      TokensOf(parts[..j]) + (if TrimSpace(parts[j]) != "" then [TrimSpace(parts[j])] else [])
  {
    assert parts[..j + 1][..j] == parts[..j];
  }

  lemma AllTokensStep(rows: seq<string>, i: nat)
    requires i < |rows|
    ensures AllTokens(rows[..i + 1]) == AllTokens(rows[..i]) + TokensOf(Split(rows[i], ','))
  {
    assert rows[..i + 1][..i] == rows[..i];
  }

  /** One more address, or none for an empty piece: the tally gains it, or stays as it is. */
  lemma TallyAppendToken(m: map<string, int>, before: seq<string>, toks: seq<string>, t: string)
    requires m == Tally(before + toks)
    ensures Tally(before + (toks + (if t != "" then [t] else []))) ==
      if t != "" then m[t := (if t in m then m[t] else 0) + 1] else m
  {
    if t != "" {
      TallyStep(before + toks, t);
      assert before + (toks + [t]) == before + toks + [t];
    } else {
      assert toks + [] == toks;
    }
  }

  /** The inner counting loop over the pieces of one row. */
  method CountPieces(m0: map<string, int>, parts: seq<string>, ghost before: seq<string>) returns (m: map<string, int>)
    requires m0 == Tally(before)
    ensures m == Tally(before + TokensOf(parts))
  {
    m := m0;
    assert before + TokensOf(parts[..0]) == before;
    for j := 0 to |parts|
      invariant m == Tally(before + TokensOf(parts[..j]))
    {
      var recipient := TrimSpace(parts[j]);
      TokensOfStep(parts, j);
      TallyAppendToken(m, before, TokensOf(parts[..j]), recipient);
      if recipient != "" {
        m := m[recipient := (if recipient in m then m[recipient] else 0) + 1];
      }
    }
    assert parts[..|parts|] == parts;
  }

  /** The counting loops: one increment per trimmed, non-empty piece of every row. */
  method CountRecipients(rows: seq<string>) returns (m: map<string, int>)
    ensures forall x :: x in m <==> Count(rows, x) > 0
    ensures forall x :: x in m ==> m[x] == Count(rows, x)
  {
    m := map[];
    for i := 0 to |rows|
      invariant m == Tally(AllTokens(rows[..i]))
    {
      m := CountPieces(m, Split(rows[i], ','), AllTokens(rows[..i]));
      AllTokensStep(rows, i);
    }
    assert rows[..|rows|] == rows;
    TallyCounts(AllTokens(rows));
  }

  /** `recipientFreq` */
  datatype Freq = Freq(email: string, count: int)

  /** The sort's comparison: `x` goes before `y`. */
  predicate Precedes(x: Freq, y: Freq) {
    x.count > y.count || (x.count == y.count && LexLess(x.email, y.email))
  }

  lemma PrecedesTransitive(x: Freq, y: Freq, z: Freq)
    requires Precedes(x, y) && Precedes(y, z)
    ensures Precedes(x, z)
  {
    if x.count == y.count && y.count == z.count {
      LexLessTransitive(x.email, y.email, z.email);
    }
  }

  lemma PrecedesTotal(x: Freq, y: Freq)
    requires x.email != y.email
    ensures Precedes(x, y) || Precedes(y, x)
  {
    LexLessTotal(x.email, y.email);
  }

  predicate DistinctEmails(s: seq<Freq>) {
    forall p, q :: 0 <= p < |s| && 0 <= q < |s| && p != q ==> s[p].email != s[q].email
  }

  /** `freqs` lists every entry of `m` exactly once. */
  predicate Lists(freqs: seq<Freq>, m: map<string, int>) {
    DistinctEmails(freqs) &&
    (forall k :: 0 <= k < |freqs| ==> freqs[k].email in m && freqs[k].count == m[freqs[k].email]) &&
    (forall x :: x in m ==> exists k :: 0 <= k < |freqs| && freqs[k].email == x)
  }

  /** The map-to-slice loop.  Go visits a map in no fixed order; so does this. */
  method Frequencies(m: map<string, int>) returns (freqs: seq<Freq>)
    ensures Lists(freqs, m)
    ensures |freqs| == |m.Keys|
  {
    var keys := m.Keys;
    freqs := [];
    while keys != {}
      invariant keys <= m.Keys
      invariant |freqs| + |keys| == |m.Keys|
      invariant DistinctEmails(freqs)
      invariant forall k :: 0 <= k < |freqs| ==>
        freqs[k].email in m && freqs[k].email !in keys && freqs[k].count == m[freqs[k].email]
      invariant forall x :: x in m && x !in keys ==> exists k :: 0 <= k < |freqs| && freqs[k].email == x
      decreases keys
    {
      var x :| x in keys;
      ghost var listed := freqs;
      freqs := freqs + [Freq(x, m[x])];
      keys := keys - {x};
      forall y | y in m && y !in keys
        ensures exists k :: 0 <= k < |freqs| && freqs[k].email == y
      {
        if y == x {
          assert freqs[|listed|].email == y;
        } else {
          var k :| 0 <= k < |listed| && listed[k].email == y;
          assert freqs[k].email == y;
        }
      }
    }
  }

  /** Exchanging two entries keeps the entries. */
  lemma SwapKeepsEntries(s: seq<Freq>, i: nat, j: nat)
    requires i < j < |s|
    ensures multiset(s[i := s[j]][j := s[i]]) == multiset(s)
  {
    var u := s[i := s[j]];
    assert multiset(u) == multiset(s) - multiset{s[i]} + multiset{s[j]};
    assert u[j] == s[j];
    assert multiset(u[j := s[i]]) == multiset(u) - multiset{s[j]} + multiset{s[i]};
  }

  /** Exchanging two entries keeps their e-mails distinct. */
  lemma SwapKeepsDistinct(s: seq<Freq>, i: nat, j: nat)
    requires i < j < |s| && DistinctEmails(s)
    ensures DistinctEmails(s[i := s[j]][j := s[i]])
  {
    var t := s[i := s[j]][j := s[i]];
    forall p, q | 0 <= p < |t| && 0 <= q < |t| && p != q
      ensures t[p].email != t[q].email
    {
      var p' := if p == i then j else if p == j then i else p;
      var q' := if q == i then j else if q == j then i else q;
      assert t[p] == s[p'] && t[q] == s[q'];
    }
  }

  /** The first `i` entries precede every entry after them. */
  predicate SettledBefore(s: seq<Freq>, i: int) {
    forall p, q :: 0 <= p < i && p < q < |s| ==> Precedes(s[p], s[q])
  }

  /** Position `i` precedes positions `i + 1` up to (not including) `j`. */
  predicate BestAt(s: seq<Freq>, i: nat, j: int) {
    i < |s| && forall q :: i < q < j && q < |s| ==> Precedes(s[i], s[q])
  }

  /** One exchange of the inner loop keeps its invariant. */
  lemma ExchangeStep(s: seq<Freq>, i: nat, j: nat)
    requires i < j < |s| && DistinctEmails(s) && SettledBefore(s, i)
    requires BestAt(s, i, j) && Precedes(s[j], s[i])
    ensures var t := s[i := s[j]][j := s[i]];
      DistinctEmails(t) && multiset(t) == multiset(s) && SettledBefore(t, i) && BestAt(t, i, j + 1)
  {
    var t := s[i := s[j]][j := s[i]];
    SwapKeepsEntries(s, i, j);
    SwapKeepsDistinct(s, i, j);
    forall q | i < q <= j
      ensures Precedes(t[i], t[q])
    {
      if q < j {
        PrecedesTransitive(s[j], s[i], s[q]);
      }
    }
    forall p, q | 0 <= p < i && p < q < |t|
      ensures Precedes(t[p], t[q])
    {
      var q' := if q == i then j else if q == j then i else q;
      assert t[p] == s[p] && t[q] == s[q'];
    }
  }

  /** Without an exchange, position `i` still precedes one more entry. */
  lemma KeepStep(s: seq<Freq>, i: nat, j: nat)
    requires i < j < |s| && DistinctEmails(s)
    requires BestAt(s, i, j) && !Precedes(s[j], s[i])
    ensures BestAt(s, i, j + 1)
  {
    PrecedesTotal(s[i], s[j]);
  }

  /** Once position `i` precedes everything after it, the first `i + 1` entries are settled. */
  lemma SettleNext(s: seq<Freq>, i: nat)
    requires SettledBefore(s, i) && BestAt(s, i, |s|)
    ensures SettledBefore(s, i + 1)
  {
  }

  /** The inner loop: exchanges bring to position `i` the entry that precedes all later ones. */
  method PlaceBest(a: array<Freq>, i: nat)
    modifies a
    requires i < a.Length && DistinctEmails(a[..]) && SettledBefore(a[..], i)
    ensures DistinctEmails(a[..]) && SettledBefore(a[..], i + 1)
    ensures multiset(a[..]) == multiset(old(a[..]))
  {
    for j := i + 1 to a.Length
      invariant DistinctEmails(a[..])
      invariant multiset(a[..]) == multiset(old(a[..]))
      invariant SettledBefore(a[..], i)
      invariant BestAt(a[..], i, j)
    {
      ghost var s := a[..];
      if a[j].count > a[i].count || (a[j].count == a[i].count && LexLess(a[j].email, a[i].email)) {
        ExchangeStep(s, i, j);
        a[i], a[j] := a[j], a[i];
        assert a[..] == s[i := s[j]][j := s[i]];
      } else {
        KeepStep(s, i, j);
      }
    }
    SettleNext(a[..], i);
  }

  /** The nested exchange loop: position `i` ends up holding the entry that
      precedes all later ones. */
  method SortByFrequency(a: array<Freq>)
    modifies a
    requires DistinctEmails(a[..])
    ensures DistinctEmails(a[..])
    ensures forall p, q :: 0 <= p < q < a.Length ==> Precedes(a[p], a[q])
    ensures multiset(a[..]) == multiset(old(a[..]))
  {
    for i := 0 to a.Length
      invariant DistinctEmails(a[..])
      invariant multiset(a[..]) == multiset(old(a[..]))
      invariant SettledBefore(a[..], i)
    {
      PlaceBest(a, i);
    }
  }

  /** A fresh array holding the entries of `s` (the slice the sort works on). */
  method ToArray(s: seq<Freq>) returns (a: array<Freq>)
    ensures fresh(a) && a[..] == s
  {
    a := new Freq[|s|](k requires 0 <= k < |s| => s[k]);
  }

  /** The "take top N" loop. */
  method Take(a: array<Freq>, limit: int) returns (result: seq<string>)
    requires limit >= 0
    ensures |result| == if limit < a.Length then limit else a.Length
    ensures forall k :: 0 <= k < |result| ==> result[k] == a[k].email
  {
    result := [];
    var i := 0;
    while i < a.Length && i < limit
      invariant 0 <= i <= a.Length && i <= limit
      invariant |result| == i
      invariant forall k :: 0 <= k < i ==> result[k] == a[k].email
    {
      result := result + [a[i].email];
      i := i + 1;
    }
  }

  /** `x` ranks before `y` in the autocomplete list. */
  predicate Ranked(rows: seq<string>, x: string, y: string) {
    Count(rows, x) > Count(rows, y) || (Count(rows, x) == Count(rows, y) && LexLess(x, y))
  }

  /** Ranked addresses are different addresses. */
  lemma RankedDistinct(rows: seq<string>, x: string, y: string)
    requires Ranked(rows, x, y)
    ensures x != y
  {
    if x == y {
      LexLessIrreflexive(x);
    }
  }

  lemma TokenSetIsCounted(rows: seq<string>, m: map<string, int>)
    requires forall x :: x in m <==> Count(rows, x) > 0
    ensures m.Keys == TokenSet(rows)
  {
  }

  /** A listing of the same entries in another order is still a listing. */
  lemma ListsPermuted(freqs: seq<Freq>, f: seq<Freq>, m: map<string, int>)
    requires Lists(freqs, m) && DistinctEmails(f)
    requires multiset(f) == multiset(freqs)
    ensures Lists(f, m)
  {
    forall k | 0 <= k < |f|
      ensures f[k].email in m && f[k].count == m[f[k].email]
    {
      assert f[k] in multiset(freqs);
    }
    forall x | x in m
      ensures exists k :: 0 <= k < |f| && f[k].email == x
    {
      var k :| 0 <= k < |freqs| && freqs[k].email == x;
      assert freqs[k] in multiset(f);
    }
  }

  /** `f` lists every address with its count, best ranked first. */
  ghost predicate RankedListing(rows: seq<string>, f: seq<Freq>) {
    (forall k :: 0 <= k < |f| ==> Count(rows, f[k].email) > 0 && f[k].count == Count(rows, f[k].email)) &&
    (forall x :: Count(rows, x) > 0 ==> exists k :: 0 <= k < |f| && f[k].email == x) &&
    (forall p, q :: 0 <= p < q < |f| ==> Precedes(f[p], f[q]))
  }

  /** The first entries of a ranked listing are the best-ranked addresses. */
  lemma TopRanked(rows: seq<string>, f: seq<Freq>, result: seq<string>)
    requires RankedListing(rows, f)
    requires |result| <= |f| && forall k :: 0 <= k < |result| ==> result[k] == f[k].email
    ensures forall p, q :: 0 <= p < q < |result| ==> Ranked(rows, result[p], result[q])
    ensures forall p, q :: 0 <= p < q < |result| ==> result[p] != result[q]
    ensures forall x :: Count(rows, x) > 0 && x !in result ==>
      forall k :: 0 <= k < |result| ==> Ranked(rows, result[k], x)
  {
    forall p, q | 0 <= p < q < |result|
      ensures Ranked(rows, result[p], result[q]) && result[p] != result[q]
    {
      assert Precedes(f[p], f[q]);
      RankedDistinct(rows, result[p], result[q]);
    }
    forall x | Count(rows, x) > 0 && x !in result
      ensures forall k :: 0 <= k < |result| ==> Ranked(rows, result[k], x)
    {
      var q :| 0 <= q < |f| && f[q].email == x;
      assert forall k :: 0 <= k < |result| ==> f[k].email != x;
      forall k | 0 <= k < |result|
        ensures Ranked(rows, result[k], x)
      {
        assert Precedes(f[k], f[q]);
      }
    }
  }

  /** The sorted listing of the counts is a ranked listing of the addresses. */
  lemma ListingRanks(rows: seq<string>, m: map<string, int>, freqs: seq<Freq>, f: seq<Freq>)
    requires forall x :: x in m <==> Count(rows, x) > 0
    requires forall x :: x in m ==> m[x] == Count(rows, x)
    requires Lists(freqs, m) && DistinctEmails(f) && multiset(f) == multiset(freqs)
    requires forall p, q :: 0 <= p < q < |f| ==> Precedes(f[p], f[q])
    ensures RankedListing(rows, f)
  {
    ListsPermuted(freqs, f, m);
  }

  /** Counting, listing and sorting: every address with its count, best ranked first. */
  method RankedEntries(rows: seq<string>) returns (a: array<Freq>)
    ensures fresh(a)
    ensures RankedListing(rows, a[..]) && DistinctEmails(a[..])
    ensures a.Length == |TokenSet(rows)|
  {
    var m := CountRecipients(rows);
    var freqs := Frequencies(m);
    a := ToArray(freqs);
    SortByFrequency(a);
    ListingRanks(rows, m, freqs, a[..]);
    TokenSetIsCounted(rows, m);
    assert a.Length == |freqs| by {
      assert |multiset(a[..])| == |multiset(freqs)|;
    }
  }

  /** The body of `GetUniqueRecipients` after the query: count, list, sort, take. */
  method UniqueRecipients(rows: seq<string>, limit: int) returns (result: seq<string>)
    requires limit >= 0
    ensures |result| == if limit < |TokenSet(rows)| then limit else |TokenSet(rows)|
    ensures forall k :: 0 <= k < |result| ==> Count(rows, result[k]) > 0
    ensures forall p, q :: 0 <= p < q < |result| ==> result[p] != result[q]
    ensures forall p, q :: 0 <= p < q < |result| ==> Ranked(rows, result[p], result[q])
    ensures forall x :: Count(rows, x) > 0 && x !in result ==>
      forall k :: 0 <= k < |result| ==> Ranked(rows, result[k], x)
  {
    var a := RankedEntries(rows);
    result := Take(a, limit);
    TopRanked(rows, a[..], result);
  }
}
