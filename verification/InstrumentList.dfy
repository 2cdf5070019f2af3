/** The `--instruments` list: symbol@exchange, @exchange reusing a symbol, and bare symbols. */
module InstrumentList {
  import opened Options

  datatype Pair = Pair(symbol: string, exchange: string)

  // Unicode White_Space, which trimming removes.
  predicate IsSpace(c: char) {
    var n := c as int;
    || 0x09 <= n <= 0x0D || n == 0x20 || n == 0x85 || n == 0xA0 || n == 0x1680
    || 0x2000 <= n <= 0x200A || n == 0x2028 || n == 0x2029 || n == 0x202F || n == 0x205F || n == 0x3000
  }

  function TrimStart(s: string): string {
    if s != [] && IsSpace(s[0]) then TrimStart(s[1..]) else s
  }

  function TrimEnd(s: string): string {
    if s != [] && IsSpace(s[|s| - 1]) then TrimEnd(s[..|s| - 1]) else s
  }

  function Trim(s: string): string {
    TrimEnd(TrimStart(s))
  }

  function Split(s: string): (parts: seq<string>)
    ensures parts != []
  {
    if s == [] then [[]]
    else if s[0] == ',' then [[]] + Split(s[1..])
    else [[s[0]] + Split(s[1..])[0]] + Split(s[1..])[1..]
  }

  // Position of the last '@'.
  function LastAt(s: string): (pos: Option<nat>)
    ensures pos.None? ==> '@' !in s
    ensures pos.Some? ==> pos.value < |s| && s[pos.value] == '@' && '@' !in s[pos.value + 1..]
  {
    if s == [] then None
    else if s[|s| - 1] == '@' then Some(|s| - 1)
    else LastAt(s[..|s| - 1])
  }

  datatype State = State(results: seq<Pair>, implied: Option<string>)

  function PartParsed(st: State, part: string, defaultExchange: string): State {
    var trimmed := Trim(part);
    if trimmed == [] then st
    else
      match LastAt(trimmed)
      case None => st.(results := st.results + [Pair(trimmed, defaultExchange)])
      case Some(pos) =>
        var exchange := trimmed[pos + 1..];
        if pos == 0 then
          if st.implied.Some? && st.results != [] then
            st.(results := st.results + [Pair(st.results[|st.results| - 1].symbol, exchange)])
          else st
        else State(st.results + [Pair(trimmed[..pos], exchange)], Some(exchange))
  }

  function PartsParsed(parts: seq<string>, defaultExchange: string): State {
    if parts == [] then State([], None)
    else PartParsed(PartsParsed(parts[..|parts| - 1], defaultExchange), parts[|parts| - 1], defaultExchange)
  }

  lemma {:induction false} NextPart(parts: seq<string>, n: nat, d: string)
    requires 0 < n <= |parts|
    ensures PartsParsed(parts[..n], d) == PartParsed(PartsParsed(parts[..n - 1], d), parts[n - 1], d)
  {
    assert parts[..n][..n - 1] == parts[..n - 1];
  }

  // The body of the loop.
  method AddPart(results: seq<Pair>, implied: Option<string>, part: string, defaultExchange: string)
    returns (results': seq<Pair>, implied': Option<string>)
    ensures State(results', implied') == PartParsed(State(results, implied), part, defaultExchange)
  {
    results', implied' := results, implied;
    var trimmed := Trim(part);
    if trimmed == [] {
      return;
    }
    match LastAt(trimmed) {
      case Some(pos) =>
        if pos == 0 {
          var exchange := trimmed[1..];
          if implied.Some? && results != [] {
            results' := results + [Pair(results[|results| - 1].symbol, exchange)];
          }
        } else {
          var symbol, exchange := trimmed[..pos], trimmed[pos + 1..];
          implied' := Some(exchange);
          results' := results + [Pair(symbol, exchange)];
        }
      case None =>
        results' := results + [Pair(trimmed, defaultExchange)];
    }
  }

  method ParseInstrumentsList(input: string, defaultExchange: string) returns (results: seq<Pair>)
    ensures results == PartsParsed(Split(input), defaultExchange).results
  {
    results := [];
    var parts := Split(input);
    var implied: Option<string> := None;
    for i := 0 to |parts|
      invariant State(results, implied) == PartsParsed(parts[..i], defaultExchange)
    {
      NextPart(parts, i + 1, defaultExchange);
      results, implied := AddPart(results, implied, parts[i], defaultExchange);
    }
    assert parts[..|parts|] == parts;
  }

  // ----- printing -----

  // Full: symbol@exchange. Short: @exchange, the symbol being the predecessor's. Bare: symbol alone.
  datatype Form = Full | Short | Bare

  function Printed(p: Pair, form: Form): string {
    match form
    case Full => p.symbol + "@" + p.exchange
    case Short => "@" + p.exchange
    case Bare => p.symbol
  }

  function Join(parts: seq<string>): string {
    if parts == [] then []
    else if |parts| == 1 then parts[0]
    else parts[0] + "," + Join(parts[1..])
  }

  function PrintedAll(pairs: seq<Pair>, forms: seq<Form>): seq<string>
    requires |pairs| == |forms|
  {
    seq(|pairs|, i requires 0 <= i < |pairs| => Printed(pairs[i], forms[i]))
  }

  predicate GoodSymbol(s: string) {
    s != [] && ',' !in s && !IsSpace(s[0])
  }

  predicate GoodExchange(e: string) {
    ',' !in e && '@' !in e && (e != [] ==> !IsSpace(e[|e| - 1]))
  }

  // When pair i may be written in its form.
  ghost predicate Writable(pairs: seq<Pair>, forms: seq<Form>, i: nat, defaultExchange: string)
    requires i < |pairs| == |forms|
  {
    && GoodSymbol(pairs[i].symbol)
    && GoodExchange(pairs[i].exchange)
    && match forms[i]
       case Full => true
       case Short => i > 0 && pairs[i - 1].symbol == pairs[i].symbol && Full in forms[..i]
       case Bare =>
         && pairs[i].exchange == defaultExchange && '@' !in pairs[i].symbol
         && !IsSpace(pairs[i].symbol[|pairs[i].symbol| - 1])
  }

  // ----- round trip -----

  lemma {:induction false} TrimKeeps(s: string)
    requires s != [] && !IsSpace(s[0]) && !IsSpace(s[|s| - 1])
    ensures Trim(s) == s
  {
  }

  lemma {:induction false} LastAtUnique(s: string, k: nat)
    requires k < |s| && s[k] == '@' && forall i :: k < i < |s| ==> s[i] != '@'
    ensures LastAt(s) == Some(k)
  {
    if k < |s| - 1 { LastAtUnique(s[..|s| - 1], k); }
  }

  lemma {:induction false} LastAtIs(a: string, b: string)
    requires '@' !in b
    ensures LastAt(a + "@" + b) == Some(|a|)
  {
    var s := a + "@" + b;
    assert forall i :: |a| < i < |s| ==> s[i] == b[i - |a| - 1];
    LastAtUnique(s, |a|);
  }

  lemma {:induction false} FullParsed(st: State, symbol: string, exchange: string, d: string)
    requires GoodSymbol(symbol) && GoodExchange(exchange)
    ensures PartParsed(st, symbol + "@" + exchange, d) == State(st.results + [Pair(symbol, exchange)], Some(exchange))
  {
    var part := symbol + "@" + exchange;
    assert part[0] == symbol[0];
    assert part[|part| - 1] == if exchange == [] then '@' else exchange[|exchange| - 1];
    TrimKeeps(part);
    LastAtIs(symbol, exchange);
    assert part[..|symbol|] == symbol && part[|symbol| + 1..] == exchange;
  }

  lemma {:induction false} ShortParsed(st: State, exchange: string, d: string)
    requires GoodExchange(exchange)
    ensures PartParsed(st, "@" + exchange, d)
         == if st.implied.Some? && st.results != [] then
              st.(results := st.results + [Pair(st.results[|st.results| - 1].symbol, exchange)])
            else st
  {
    var part := "@" + exchange;
    assert part[|part| - 1] == if exchange == [] then '@' else exchange[|exchange| - 1];
    TrimKeeps(part);
    LastAtUnique(part, 0);
    assert part[..0] == [] && part[1..] == exchange;
  }

  lemma {:induction false} BareParsed(st: State, symbol: string, d: string)
    requires GoodSymbol(symbol) && '@' !in symbol && !IsSpace(symbol[|symbol| - 1])
    ensures PartParsed(st, symbol, d) == st.(results := st.results + [Pair(symbol, d)])
  {
    TrimKeeps(symbol);
  }

  lemma {:induction false} PartRoundTrip(pairs: seq<Pair>, forms: seq<Form>, i: nat, d: string, st: State)
    requires i < |pairs| == |forms| && Writable(pairs, forms, i, d)
    requires st.results == pairs[..i] && (st.implied.Some? <==> Full in forms[..i])
    ensures var st' := PartParsed(st, Printed(pairs[i], forms[i]), d);
      st'.results == pairs[..i + 1] && (st'.implied.Some? <==> Full in forms[..i + 1])
  {
    var p := pairs[i];
    assert pairs[..i + 1] == pairs[..i] + [p];
    assert forms[..i + 1] == forms[..i] + [forms[i]];
    match forms[i] {
      case Full => FullParsed(st, p.symbol, p.exchange, d);
      case Short => ShortParsed(st, p.exchange, d);
      case Bare => BareParsed(st, p.symbol, d);
    }
  }

  lemma {:induction false} PartsRoundTrip(pairs: seq<Pair>, forms: seq<Form>, d: string, n: nat)
    requires n <= |pairs| == |forms|
    requires forall i :: 0 <= i < n ==> Writable(pairs, forms, i, d)
    ensures var st := PartsParsed(PrintedAll(pairs, forms)[..n], d);
      st.results == pairs[..n] && (st.implied.Some? <==> Full in forms[..n])
  {
    if n > 0 {
      PartsRoundTrip(pairs, forms, d, n - 1);
      var parts := PrintedAll(pairs, forms);
      assert parts[..n][..n - 1] == parts[..n - 1];
      PartRoundTrip(pairs, forms, n - 1, d, PartsParsed(parts[..n - 1], d));
    }
  }

  lemma {:induction false} AllParts(pairs: seq<Pair>, forms: seq<Form>, d: string)
    requires |pairs| == |forms|
    requires forall i :: 0 <= i < |pairs| ==> Writable(pairs, forms, i, d)
    ensures var st := PartsParsed(PrintedAll(pairs, forms), d);
      st.results == pairs && (st.implied.Some? <==> Full in forms)
  {
    var parts := PrintedAll(pairs, forms);
    PartsRoundTrip(pairs, forms, d, |pairs|);
    assert parts[..|pairs|] == parts && pairs[..|pairs|] == pairs && forms[..|pairs|] == forms;
  }

  lemma {:induction false} SplitPart(a: string)
    requires ',' !in a
    ensures Split(a) == [a]
  {
    if a != [] {
      SplitPart(a[1..]);
      assert [a[0]] + a[1..] == a;
    }
  }

  lemma {:induction false} SplitFirst(a: string, rest: string)
    requires ',' !in a
    ensures Split(a + "," + rest) == [a] + Split(rest)
  {
    var s := a + "," + rest;
    if a == [] {
      assert s[1..] == rest;
    } else {
      assert s[1..] == a[1..] + "," + rest;
      SplitFirst(a[1..], rest);
      assert [a[0]] + a[1..] == a;
    }
  }

  lemma {:induction false} SplitJoin(parts: seq<string>)
    requires parts != [] && forall i :: 0 <= i < |parts| ==> ',' !in parts[i]
    ensures Split(Join(parts)) == parts
  {
    if |parts| == 1 {
      SplitPart(parts[0]);
    } else {
      SplitJoin(parts[1..]);
      SplitFirst(parts[0], Join(parts[1..]));
    }
  }

  // Any list, each pair written in any form open to it, parses back to the same list.
  lemma {:induction false} ListRoundTrip(pairs: seq<Pair>, forms: seq<Form>, d: string)
    requires |pairs| == |forms|
    requires forall i :: 0 <= i < |pairs| ==> Writable(pairs, forms, i, d)
    ensures PartsParsed(Split(Join(PrintedAll(pairs, forms))), d).results == pairs
  {
    var parts := PrintedAll(pairs, forms);
    if pairs == [] {
      var nothing: seq<string> := [""];
      assert Split(Join(parts)) == nothing;
      assert nothing[..0] == [];
      assert PartsParsed(nothing, d) == PartParsed(State([], None), "", d);
    } else {
      forall i | 0 <= i < |parts| ensures ',' !in parts[i] {
        assert Writable(pairs, forms, i, d);
      }
      SplitJoin(parts);
      AllParts(pairs, forms, d);
    }
  }

  // ----- white space and empty parts -----

  // The 25 characters of Unicode White_Space.
  lemma {:induction false} WhiteSpace(c: char)
    ensures IsSpace(c)
       <==> c as int in {0x09, 0x0A, 0x0B, 0x0C, 0x0D, 0x20, 0x85, 0xA0, 0x1680, 0x2000, 0x2001, 0x2002, 0x2003,
                         0x2004, 0x2005, 0x2006, 0x2007, 0x2008, 0x2009, 0x200A, 0x2028, 0x2029, 0x202F, 0x205F,
                         0x3000}
  {
  }

  ghost predicate Blank(s: string) {
    forall i :: 0 <= i < |s| ==> IsSpace(s[i])
  }

  lemma {:induction false} TrimStartDrops(pre: string, s: string)
    requires Blank(pre) && (s != [] ==> !IsSpace(s[0]))
    ensures TrimStart(pre + s) == s
  {
    if pre == [] {
      assert pre + s == s;
    } else {
      assert (pre + s)[1..] == pre[1..] + s;
      TrimStartDrops(pre[1..], s);
    }
  }

  lemma {:induction false} TrimEndDrops(s: string, post: string)
    requires Blank(post) && (s != [] ==> !IsSpace(s[|s| - 1]))
    ensures TrimEnd(s + post) == s
  {
    if post == [] {
      assert s + post == s;
    } else {
      assert (s + post)[..|s + post| - 1] == s + post[..|post| - 1];
      TrimEndDrops(s, post[..|post| - 1]);
    }
  }

  // Trimming takes off exactly the white space around a string.
  lemma {:induction false} TrimDrops(pre: string, s: string, post: string)
    requires Blank(pre) && Blank(post)
    requires s != [] ==> !IsSpace(s[0]) && !IsSpace(s[|s| - 1])
    ensures Trim(pre + s + post) == s
  {
    if s == [] {
      assert pre + s + post == (pre + post) + [];
      TrimStartDrops(pre + post, []);
    } else {
      assert pre + s + post == pre + (s + post);
      TrimStartDrops(pre, s + post);
      TrimEndDrops(s, post);
    }
  }

  lemma {:induction false} TrimPads(pre: string, part: string, post: string)
    requires Blank(pre) && Blank(post) && part != [] && !IsSpace(part[0]) && !IsSpace(part[|part| - 1])
    ensures Trim(pre + part + post) == Trim(part)
  {
    TrimDrops(pre, part, post);
    TrimKeeps(part);
  }

  // A part of white space alone counts for nothing, wherever it stands.
  lemma {:induction false} BlankPartIsSkipped(before: seq<string>, blank: string, after: seq<string>, d: string)
    requires Blank(blank)
    ensures PartsParsed(before + [blank] + after, d) == PartsParsed(before + after, d)
  {
    if after == [] {
      assert before + [blank] + after == before + [blank] && before + after == before;
      assert (before + [blank])[..|before|] == before;
      TrimDrops(blank, [], []);
      assert blank + [] + [] == blank;
    } else {
      var front, last := after[..|after| - 1], after[|after| - 1];
      BlankPartIsSkipped(before, blank, front, d);
      assert (before + [blank] + after)[..|before + [blank] + after| - 1] == before + [blank] + front;
      assert (before + after)[..|before + after| - 1] == before + front;
    }
  }

  // The printed parts, each with white space around it.
  function Padded(parts: seq<string>, pads: seq<(string, string)>): seq<string>
    requires |parts| == |pads|
  {
    seq(|parts|, i requires 0 <= i < |parts| => pads[i].0 + parts[i] + pads[i].1)
  }

  lemma {:induction false} LastPart(parts: seq<string>, part: string, d: string)
    ensures PartsParsed(parts + [part], d) == PartParsed(PartsParsed(parts, d), part, d)
  {
    assert (parts + [part])[..|parts|] == parts;
  }

  lemma {:induction false} SameTrimmed(st: State, a: string, b: string, d: string)
    requires Trim(a) == Trim(b)
    ensures PartParsed(st, a, d) == PartParsed(st, b, d)
  {
  }

  lemma {:induction false} PadsAreTrimmed(parts: seq<string>, pads: seq<(string, string)>, d: string, n: nat)
    requires n <= |parts| == |pads|
    requires forall i :: 0 <= i < n ==> Trim(Padded(parts, pads)[i]) == Trim(parts[i])
    ensures PartsParsed(Padded(parts, pads)[..n], d) == PartsParsed(parts[..n], d)
  {
    if n > 0 {
      var padded := Padded(parts, pads);
      PadsAreTrimmed(parts, pads, d, n - 1);
      NextPart(padded, n, d);
      NextPart(parts, n, d);
      SameTrimmed(PartsParsed(parts[..n - 1], d), padded[n - 1], parts[n - 1], d);
    }
  }

  lemma {:induction false} PrintedIsTrimmed(pairs: seq<Pair>, forms: seq<Form>, i: nat, d: string)
    requires i < |pairs| == |forms| && Writable(pairs, forms, i, d)
    ensures var part := Printed(pairs[i], forms[i]);
      part != [] && !IsSpace(part[0]) && !IsSpace(part[|part| - 1])
  {
    var part := Printed(pairs[i], forms[i]);
    assert !IsSpace('@');
    match forms[i] {
      case Full => assert part[|part| - 1]
                       == if pairs[i].exchange == [] then '@' else pairs[i].exchange[|pairs[i].exchange| - 1];
      case Short => assert part[|part| - 1]
                        == if pairs[i].exchange == [] then '@' else pairs[i].exchange[|pairs[i].exchange| - 1];
      case Bare =>
    }
  }

  // A list printed with any white space around its parts parses to the same pairs.
  lemma {:induction false} PaddedRoundTrip(pairs: seq<Pair>, forms: seq<Form>, pads: seq<(string, string)>, d: string)
    requires pairs != [] && |pairs| == |forms| == |pads|
    requires forall i :: 0 <= i < |pairs| ==> Writable(pairs, forms, i, d)
    requires forall i :: 0 <= i < |pads| ==> Blank(pads[i].0) && Blank(pads[i].1)
    ensures PartsParsed(Split(Join(Padded(PrintedAll(pairs, forms), pads))), d).results == pairs
  {
    var parts := PrintedAll(pairs, forms);
    var padded := Padded(parts, pads);
    forall i | 0 <= i < |parts|
      ensures ',' !in padded[i]
      ensures Trim(padded[i]) == Trim(parts[i])
    {
      assert Writable(pairs, forms, i, d);
      PrintedIsTrimmed(pairs, forms, i, d);
      TrimPads(pads[i].0, parts[i], pads[i].1);
      assert !IsSpace(',');
    }
    SplitJoin(padded);
    PadsAreTrimmed(parts, pads, d, |parts|);
    AllParts(pairs, forms, d);
    assert parts[..|pairs|] == parts && padded[..|parts|] == padded;
  }

  // A short form is honoured exactly when some full form came before it; otherwise it is dropped.
  lemma {:induction false} ShortNeedsAFullForm(pairs: seq<Pair>, forms: seq<Form>, d: string, exchange: string)
    requires |pairs| == |forms| && pairs != []
    requires forall i :: 0 <= i < |pairs| ==> Writable(pairs, forms, i, d)
    requires GoodExchange(exchange)
    ensures PartsParsed(PrintedAll(pairs, forms) + ["@" + exchange], d).results
         == if Full in forms then pairs + [Pair(pairs[|pairs| - 1].symbol, exchange)] else pairs
  {
    var parts, short := PrintedAll(pairs, forms), "@" + exchange;
    LastPart(parts, short, d);
    AllParts(pairs, forms, d);
    ShortParsed(PartsParsed(parts, d), exchange, d);
  }
}
