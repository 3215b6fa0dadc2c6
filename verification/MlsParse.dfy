/** Parsing a sensitivity range, and the round trip with printing. */
module MlsParse {
  import opened Wrappers
  import opened Ebitmap
  import opened MlsRuns
  import opened MlsPrint

  // ---------- cutting at delimiters ----------

  /** The first position with one of the characters, or the end. */
  function Until(t: string, stops: set<char>): (q: nat)
    ensures q <= |t|
  {
    if t == [] || t[0] in stops then 0 else 1 + Until(t[1..], stops)
  }

  /** A word, the delimiter after it if there is one, and what follows. */
  datatype Cut = Cut(word: string, delim: Option<char>, rest: string)

  function CutAt(t: string, stops: set<char>): Cut {
    var q := Until(t, stops);
    if q < |t| then Cut(t[..q], Some(t[q]), t[q + 1..]) else Cut(t, None, "")
  }

  predicate Free(w: string, stops: set<char>) {
    forall i | 0 <= i < |w| :: w[i] !in stops
  }

  lemma {:induction false} UntilWord(w: string, x: string, stops: set<char>)
    requires Free(w, stops) && (x != "" ==> x[0] in stops)
    ensures Until(w + x, stops) == |w|
  {
    if w == "" {
      assert w + x == x;
    } else {
      assert (w + x)[1..] == w[1..] + x;
      UntilWord(w[1..], x, stops);
    }
  }

  lemma CutWord(w: string, x: string, stops: set<char>)
    requires Free(w, stops) && (x != "" ==> x[0] in stops)
    ensures CutAt(w + x, stops) == if x == "" then Cut(w, None, "") else Cut(w, Some(x[0]), x[1..])
  {
    UntilWord(w, x, stops);
    assert x == "" ==> w + x == w;
    assert x != "" ==> (w + x)[..|w|] == w && (w + x)[|w|] == x[0] && (w + x)[|w| + 1..] == x[1..];
  }

  lemma {:induction false} UntilFrom(t: string, stops: set<char>, q: nat)
    requires q <= |t| && Free(t[..q], stops)
    ensures Until(t, stops) == q + Until(t[q..], stops)
  {
    if q > 0 {
      assert t[0] == t[..q][0];
      assert t[1..][..q - 1] == t[..q][1..];
      assert t[1..][q - 1..] == t[q..];
      UntilFrom(t[1..], stops, q - 1);
    }
  }

  // ---------- what a text means ----------

  const CATEGORY_STOPS: set<char> := {',', '-'}
  const LOW_STOPS: set<char> := {':', '-'}
  const HIGH_STOPS: set<char> := {':'}

  function Lookup(names: map<string, nat>, w: string): Option<nat> {
    if w in names then Some(names[w]) else None
  }

  /** A category, or a range of them in ascending order. */
  function WordCats(p: Policy, w: string): Option<set<nat>> {
    var c := CutAt(w, {'.'});
    var a := Lookup(p.cats, c.word);
    if a.None? || a.value == 0 then None
    else if c.delim.None? then Some({a.value - 1})
    else
      var b := Lookup(p.cats, c.rest);
      if b.None? || a.value >= b.value then None else Some(Interval(a.value - 1, b.value - 1))
  }

  /** A word without a dot names one category; one with a dot all those from the first name to
      the second, which must come later. */
  lemma WordMeans(p: Policy, x: string, y: string)
    requires forall i | 0 <= i < |x| :: x[i] != '.'
    ensures WordCats(p, x) == if x in p.cats && p.cats[x] > 0 then Some({p.cats[x] - 1}) else None
    ensures WordCats(p, x + ("." + y)).Some? <==> x in p.cats && y in p.cats && 0 < p.cats[x] < p.cats[y]
    ensures WordCats(p, x + ("." + y)).Some? ==>
              forall c: nat :: c in WordCats(p, x + ("." + y)).value <==> p.cats[x] <= c + 1 <= p.cats[y]
  {
    CutWord(x, "", {'.'});
    assert x + "" == x;
    CutWord(x, "." + y, {'.'});
    assert ("." + y)[0] == '.' && ("." + y)[1..] == y;
  }

  datatype Cats = Cats(cats: set<nat>, delim: Option<char>, rest: string)

  function ParseCats(p: Policy, t: string): (r: Option<Cats>)
    ensures r.Some? ==> |r.value.rest| <= |t|
    decreases |t|
  {
    var c := CutAt(t, CATEGORY_STOPS);
    var first := WordCats(p, c.word);
    if first.None? then None
    else if c.delim == Some(',') then
      var more := ParseCats(p, c.rest);
      if more.None? then None else Some(more.value.(cats := first.value + more.value.cats))
    else Some(Cats(first.value, c.delim, c.rest))
  }

  /** A level whose sensitivity has been cut off. */
  datatype Parsed = Parsed(sens: nat, cats: set<nat>, delim: Option<char>, rest: string)

  function ParseLevel(p: Policy, c: Cut): Option<Parsed> {
    var s := Lookup(p.levels, c.word);
    if s.None? then None
    else if c.delim == Some(':') then
      var r := ParseCats(p, c.rest);
      if r.None? then None else Some(Parsed(s.value, r.value.cats, r.value.delim, r.value.rest))
    else Some(Parsed(s.value, {}, c.delim, c.rest))
  }

  /** The range of a text and how much of it was read, the closing zero included. A text
      with a third level is accepted, and the third level is not looked at. */
  datatype Meaning = Meaning(lowSens: nat, lowCats: set<nat>, highSens: nat, highCats: set<nat>, next: nat)

  function Parse(p: Policy, t: string): Option<Meaning> {
    var low := ParseLevel(p, CutAt(t, LOW_STOPS));
    if low.None? then None
    else
      var l := low.value;
      if l.delim != Some('-') then Some(Meaning(l.sens, l.cats, l.sens, l.cats, |t| - |l.rest| + 1))
      else
        var high := ParseLevel(p, CutAt(l.rest, HIGH_STOPS));
        if high.None? then None
        else
          var h := high.value;
          var rest := if h.delim == Some('-') then CutAt(h.rest, HIGH_STOPS).rest else h.rest;
          Some(Meaning(l.sens, l.cats, h.sens, h.cats, |t| - |rest| + 1))
  }

  // ---------- the round trip ----------

  /** Each value has a name that leads back to it, and the names leave the delimiters to
      the printer. */
  ghost predicate GoodNames(p: Policy) {
    && (forall i | 0 <= i < |p.sensNames| :: Lookup(p.levels, p.sensNames[i]) == Some(i + 1))
    && (forall i | 0 <= i < |p.sensNames| :: Free(p.sensNames[i], LOW_STOPS))
    && (forall i | 0 <= i < |p.catNames| :: Lookup(p.cats, p.catNames[i]) == Some(i + 1) && PlainCat(p.catNames[i]))
  }

  predicate PlainCat(w: string) {
    Free(w, CATEGORY_STOPS) && Free(w, {'.'})
  }

  predicate GoodItem(it: Item, n: nat) {
    it.first < n && (it.last.Some? ==> it.first < it.last.value < n)
  }

  ghost predicate GoodItems(items: seq<Item>, n: nat) {
    forall i | 0 <= i < |items| :: GoodItem(items[i], n)
  }

  lemma CloseGood(items: seq<Item>, r: nat, e: nat, n: nat)
    requires GoodItems(items, n) && e < n && items != [] && (r > 2 ==> items[|items| - 1].first < e)
    ensures GoodItems(Close(items, r, e), n)
  {
  }

  lemma {:induction false} ScanGood(v: seq<nat>, s: set<nat>, n: nat, k: nat)
    requires Visits(v, s, n) && k <= |v|
    ensures GoodItems(ScanTo(v, s, k).items, n)
  {
    if k > 0 {
      ScanGood(v, s, n, k - 1);
      var st := ScanTo(v, s, k - 1);
      ScanState(v, s, k - 1);
      if v[k - 1] !in s && st.run > 1 {
        EndHasName(v, s, n, k - 1);
        FirstBelowEnd(v, k - 1, st.run);
        CloseGood(st.items, st.run, v[k - 1] - 1, n);
      }
    }
  }

  lemma FirstBelowEnd(v: seq<nat>, k: nat, r: nat)
    requires forall i, j | 0 <= i < j < |v| :: v[i] < v[j]
    requires 2 <= r <= k <= |v|
    ensures v[k - r] < v[k - 1]
    ensures k < |v| ==> v[k - 1] < v[k]
  {
  }

  /** The items of a bitmap within the named categories can be printed and read back. */
  lemma ItemsGood(nodes: seq<Node>, n: nat)
    requires Canonical(nodes) && Within(Bits(nodes), 0, n)
    ensures GoodItems(Items(nodes), n)
  {
    var v, s := Visited(nodes), Bits(nodes);
    VisitedVisits(nodes, n);
    ScanGood(v, s, n, |v|);
    ScanState(v, s, |v|);
    var st := ScanTo(v, s, |v|);
    if st.run > 1 {
      EndHasName(v, s, n, |v|);
      FirstBelowEnd(v, |v|, st.run);
      CloseGood(st.items, st.run, v[|v| - 1], n);
    }
  }

  /** An item reads back as what it stands for, and has no delimiter in it. */
  lemma ItemReads(p: Policy, it: Item)
    requires GoodNames(p) && GoodItem(it, |p.catNames|)
    ensures WordCats(p, ItemText(p, it)) == Some(ItemSet(it))
    ensures Free(ItemText(p, it), CATEGORY_STOPS)
  {
    var a := p.catNames[it.first];
    assert PlainCat(a);
    if it.last.None? {
      CutWord(a, "", {'.'});
      assert ItemText(p, it) == a == a + "";
    } else {
      var b := p.catNames[it.last.value];
      assert PlainCat(b);
      CutWord(a, "." + b, {'.'});
      assert ("." + b)[1..] == b;
      assert ItemText(p, it) == a + ("." + b);
    }
  }

  /** What reading yields when the categories c are followed by the text x. */
  function Then(p: Policy, c: set<nat>, x: string): Option<Cats> {
    if x == "" then Some(Cats(c, None, ""))
    else if x[0] == ',' then
      var more := ParseCats(p, x[1..]);
      if more.None? then None else Some(more.value.(cats := c + more.value.cats))
    else Some(Cats(c, Some(x[0]), x[1..]))
  }

  lemma ItemThen(p: Policy, it: Item, x: string)
    requires GoodNames(p) && GoodItem(it, |p.catNames|) && (x != "" ==> x[0] in CATEGORY_STOPS)
    ensures ParseCats(p, ItemText(p, it) + x) == Then(p, ItemSet(it), x)
  {
    ItemReads(p, it);
    CutWord(ItemText(p, it), x, CATEGORY_STOPS);
  }

  /** The text of a list of items, without its leading colon. */
  function Body(p: Policy, items: seq<Item>): string
    requires items != []
  {
    var n := |items| - 1;
    if n == 0 then ItemText(p, items[0]) else Body(p, items[..n]) + ("," + ItemText(p, items[n]))
  }

  lemma {:induction false} BodyText(p: Policy, items: seq<Item>)
    requires items != []
    ensures ItemsText(p, items) == ":" + Body(p, items)
  {
    var n := |items| - 1;
    if n > 0 {
      BodyText(p, items[..n]);
      Regroup(":", Body(p, items[..n]), "," + ItemText(p, items[n]));
      Regroup(ItemsText(p, items[..n]), ",", ItemText(p, items[n]));
    } else {
      assert items[..0] == [];
    }
  }

  lemma OneItemThen(p: Policy, it: Item, x: string)
    requires GoodNames(p) && GoodItem(it, |p.catNames|) && (x != "" ==> x[0] in CATEGORY_STOPS)
    ensures ParseCats(p, Body(p, [it]) + x) == Then(p, Denoted([it]), x)
  {
    assert [it][..0] == [];
    assert Denoted([it]) == {} + ItemSet(it) == ItemSet(it);
    ItemThen(p, it, x);
  }

  lemma {:induction false} ItemsThen(p: Policy, items: seq<Item>, x: string)
    requires GoodNames(p) && items != [] && GoodItems(items, |p.catNames|) && (x != "" ==> x[0] in CATEGORY_STOPS)
    ensures ParseCats(p, Body(p, items) + x) == Then(p, Denoted(items), x)
  {
    var n := |items| - 1;
    if n == 0 {
      assert items == [items[0]];
      OneItemThen(p, items[0], x);
    } else {
      var init, text := items[..n], ItemText(p, items[n]);
      ItemThen(p, items[n], x);
      assert ("," + text + x)[0] == ',';
      ItemsThen(p, init, "," + text + x);
      OneMoreThen(p, Body(p, init), Denoted(init), text, ItemSet(items[n]), x);
    }
  }

  lemma OneMoreThen(p: Policy, body: string, a: set<nat>, text: string, b: set<nat>, x: string)
    requires ParseCats(p, body + ("," + text + x)) == Then(p, a, "," + text + x)
    requires ParseCats(p, text + x) == Then(p, b, x)
    ensures ParseCats(p, body + ("," + text) + x) == Then(p, a + b, x)
  {
    ThenComma(p, a, text, x);
    Regroup(body, "," + text, x);
    ThenTwice(p, a, b, x);
  }

  lemma ThenComma(p: Policy, a: set<nat>, text: string, x: string)
    ensures
      var more := ParseCats(p, text + x);
      Then(p, a, "," + text + x) == if more.None? then None else Some(more.value.(cats := a + more.value.cats))
  {
    var y := "," + text + x;
    assert y[1..] == text + x && y[0] == ',';
  }

  lemma ThenTwice(p: Policy, a: set<nat>, b: set<nat>, x: string)
    ensures
      var more := Then(p, b, x);
      Then(p, a + b, x) == if more.None? then None else Some(more.value.(cats := a + more.value.cats))
  {
    if x != "" && x[0] == ',' {
      var more := ParseCats(p, x[1..]);
      if more.Some? { SetAssoc(a, b, more.value.cats); }
    }
  }

  function DelimOf(x: string): Option<char> {
    if x == "" then None else Some(x[0])
  }

  function RestOf(x: string): string {
    if x == "" then "" else x[1..]
  }

  /** A level without categories. */
  lemma BareLevelReads(p: Policy, name: string, sens: nat, x: string, stops: set<char>)
    requires Lookup(p.levels, name) == Some(sens) && Free(name, stops)
    requires x != "" ==> x[0] != ':' && x[0] in stops
    ensures ParseLevel(p, CutAt(name + x, stops)) == Some(Parsed(sens, {}, DelimOf(x), RestOf(x)))
  {
    CutWord(name, x, stops);
  }

  lemma ThenEnds(p: Policy, c: set<nat>, x: string)
    requires x != "" ==> x[0] != ','
    ensures Then(p, c, x) == Some(Cats(c, DelimOf(x), RestOf(x)))
  {
  }

  lemma LevelOfParts(p: Policy, cut: Cut, sens: nat, r: Cats)
    requires Lookup(p.levels, cut.word) == Some(sens) && cut.delim == Some(':') && ParseCats(p, cut.rest) == Some(r)
    ensures ParseLevel(p, cut) == Some(Parsed(sens, r.cats, r.delim, r.rest))
  {
  }

  lemma CutColon(name: string, body: string, x: string, stops: set<char>)
    requires Free(name, stops) && ':' in stops
    ensures CutAt(name + (":" + body + x), stops) == Cut(name, Some(':'), body + x)
  {
    var y := ":" + body + x;
    assert y[0] == ':' && y[1..] == body + x;
    CutWord(name, y, stops);
  }

  /** A level with a text of categories that reads back as the set c. */
  lemma FullLevelReads(p: Policy, name: string, sens: nat, body: string, c: set<nat>, x: string, stops: set<char>)
    requires Lookup(p.levels, name) == Some(sens) && Free(name, stops) && ':' in stops
    requires x != "" ==> x[0] != ','
    requires ParseCats(p, body + x) == Then(p, c, x)
    ensures ParseLevel(p, CutAt(name + (":" + body + x), stops)) == Some(Parsed(sens, c, DelimOf(x), RestOf(x)))
  {
    CutColon(name, body, x, stops);
    ThenEnds(p, c, x);
    LevelOfParts(p, Cut(name, Some(':'), body + x), sens, Cats(c, DelimOf(x), RestOf(x)));
  }

  /** A level reads back as its sensitivity and what its items stand for. */
  lemma LevelReads(p: Policy, l: Level, x: string, stops: set<char>)
    requires GoodNames(p) && LevelOk(p, l) && ':' in stops && stops <= LOW_STOPS
    requires x != "" ==> x[0] == '-' && '-' in stops
    ensures ParseLevel(p, CutAt(LevelText(p, l) + x, stops)) ==
            Some(Parsed(l.sens, Denoted(Items(l.cat)), DelimOf(x), RestOf(x)))
  {
    var name, items := SensName(p, l.sens), Items(l.cat);
    assert Free(name, stops);
    ItemsGood(l.cat, |p.catNames|);
    if items == [] {
      assert LevelText(p, l) + x == name + x;
      BareLevelReads(p, name, l.sens, x, stops);
    } else {
      BodyText(p, items);
      ItemsThen(p, items, x);
      Regroup(name, ":" + Body(p, items), x);
      FullLevelReads(p, name, l.sens, Body(p, items), Denoted(items), x, stops);
    }
  }

  /** What a printed range reads back as, whatever the category sets. */
  lemma RangeReads(p: Policy, r: Range)
    requires GoodNames(p) && RangeOk(p, r)
    ensures RangeText(p, r) != ""
    ensures Parse(p, RangeText(p, r)[1..]) ==
            Some(Meaning(r.low.sens, Denoted(Items(r.low.cat)), r.high.sens, Denoted(Items(r.high.cat)),
                         |RangeText(p, r)|))
  {
    if r.low == r.high { OneLevelReads(p, r.low); } else { TwoLevelsRead(p, r.low, r.high); }
  }

  lemma DropColon(a: string, b: string)
    ensures (":" + a + b)[1..] == a + b && |":" + a + b| == |a + b| + 1
  {
  }

  lemma OneLevelReads(p: Policy, l: Level)
    requires GoodNames(p) && LevelOk(p, l)
    ensures
      var t := ":" + LevelText(p, l) + "";
      Parse(p, t[1..]) == Some(Meaning(l.sens, Denoted(Items(l.cat)), l.sens, Denoted(Items(l.cat)), |t|))
  {
    DropColon(LevelText(p, l), "");
    LevelReads(p, l, "", LOW_STOPS);
    OneParsed(p, LevelText(p, l) + "", Parsed(l.sens, Denoted(Items(l.cat)), None, ""));
  }

  lemma OneParsed(p: Policy, t: string, l: Parsed)
    requires ParseLevel(p, CutAt(t, LOW_STOPS)) == Some(l) && l.delim == None && l.rest == ""
    ensures Parse(p, t) == Some(Meaning(l.sens, l.cats, l.sens, l.cats, |t| + 1))
  {
  }

  lemma TwoParsed(p: Policy, t: string, l: Parsed, h: Parsed)
    requires ParseLevel(p, CutAt(t, LOW_STOPS)) == Some(l) && l.delim == Some('-')
    requires ParseLevel(p, CutAt(l.rest, HIGH_STOPS)) == Some(h) && h.delim == None && h.rest == ""
    ensures Parse(p, t) == Some(Meaning(l.sens, l.cats, h.sens, h.cats, |t| + 1))
  {
  }

  lemma DashParts(high: string)
    ensures var x := "-" + high; x != "" && x[0] == '-' && RestOf(x) == high && DelimOf(x) == Some('-')
    ensures high + "" == high
  {
  }

  lemma TwoLevelsRead(p: Policy, l: Level, h: Level)
    requires GoodNames(p) && LevelOk(p, l) && LevelOk(p, h)
    ensures
      var t := ":" + LevelText(p, l) + ("-" + LevelText(p, h));
      Parse(p, t[1..]) == Some(Meaning(l.sens, Denoted(Items(l.cat)), h.sens, Denoted(Items(h.cat)), |t|))
  {
    DropColon(LevelText(p, l), "-" + LevelText(p, h));
    TwoLevelsParse(p, l, h);
  }

  lemma TwoLevelsParse(p: Policy, l: Level, h: Level)
    requires GoodNames(p) && LevelOk(p, l) && LevelOk(p, h)
    ensures
      var t := LevelText(p, l) + ("-" + LevelText(p, h));
      Parse(p, t) == Some(Meaning(l.sens, Denoted(Items(l.cat)), h.sens, Denoted(Items(h.cat)), |t| + 1))
  {
    var low, high := LevelText(p, l), LevelText(p, h);
    DashParts(high);
    LevelReads(p, l, "-" + high, LOW_STOPS);
    LevelReads(p, h, "", HIGH_STOPS);
    TwoParsed(p, low + ("-" + high), Parsed(l.sens, Denoted(Items(l.cat)), Some('-'), high),
              Parsed(h.sens, Denoted(Items(h.cat)), None, ""));
  }

  /** A third level is accepted and not looked at: behind the categories of the high level a
      dash and anything whatever change nothing but the position reached. */
  lemma ThirdLevelIgnored(p: Policy, l: Level, h: Level, x: string)
    requires GoodNames(p) && LevelOk(p, l) && LevelOk(p, h) && Items(h.cat) != []
    ensures
      var m := Parse(p, LevelText(p, l) + ("-" + (LevelText(p, h) + ("-" + x))));
      && m.Some? && m.value.lowSens == l.sens && m.value.lowCats == Denoted(Items(l.cat))
      && m.value.highSens == h.sens && m.value.highCats == Denoted(Items(h.cat))
  {
    var high := LevelText(p, h) + ("-" + x);
    DashParts(high);
    DashParts(x);
    LevelReads(p, l, "-" + high, LOW_STOPS);
    var name, items := SensName(p, h.sens), Items(h.cat);
    ItemsGood(h.cat, |p.catNames|);
    BodyText(p, items);
    ItemsThen(p, items, "-" + x);
    Regroup(name, ":" + Body(p, items), "-" + x);
    FullLevelReads(p, name, h.sens, Body(p, items), Denoted(items), "-" + x, HIGH_STOPS);
    ThreeParsed(p, LevelText(p, l) + ("-" + high), Parsed(l.sens, Denoted(Items(l.cat)), Some('-'), high),
                Parsed(h.sens, Denoted(items), Some('-'), x));
  }

  lemma ThreeParsed(p: Policy, t: string, l: Parsed, h: Parsed)
    requires ParseLevel(p, CutAt(t, LOW_STOPS)) == Some(l) && l.delim == Some('-')
    requires ParseLevel(p, CutAt(l.rest, HIGH_STOPS)) == Some(h) && h.delim == Some('-')
    ensures var m := Parse(p, t);
            && m.Some? && m.value.lowSens == l.sens && m.value.lowCats == l.cats
            && m.value.highSens == h.sens && m.value.highCats == h.cats
  {
  }

  /** A parsed range is the range itself. */
  ghost predicate Is(m: Meaning, r: Range) {
    && m.lowSens == r.low.sens && m.lowCats == Bits(r.low.cat)
    && m.highSens == r.high.sens && m.highCats == Bits(r.high.cat)
  }

  /** Printing and parsing give the range back exactly when both category sets are printed
      faithfully; parsing never fails. */
  lemma RoundTrip(p: Policy, r: Range)
    requires GoodNames(p) && RangeOk(p, r)
    ensures var m := Parse(p, RangeText(p, r)[1..]);
      m.Some? && (Is(m.value, r) <==> Faithful(r.low.cat) && Faithful(r.high.cat))
  {
    RangeReads(p, r);
  }

  /** In particular when no word is absent between two that are present. */
  lemma GaplessRoundTrip(p: Policy, r: Range)
    requires GoodNames(p) && RangeOk(p, r) && Gapless(r.low.cat) && Gapless(r.high.cat)
    ensures var m := Parse(p, RangeText(p, r)[1..]); m.Some? && Is(m.value, r)
  {
    RoundTrip(p, r);
    GaplessFaithful(r.low.cat, |p.catNames|);
    GaplessFaithful(r.high.cat, |p.catNames|);
  }

  /** A set that does not come back: categories 62, 63 and 193 are printed as 62, 191 and 193. */
  lemma AbsentWordExample()
    ensures var cat := [Node(0, {62, 63}), Node(192, {1})];
      Canonical(cat) && !Faithful(cat)
  {
    var cat := [Node(0, {62, 63}), Node(192, {1})];
    var v, s := Visited(cat), Bits(cat);
    var first: seq<Node> := [cat[0]];
    assert cat == first + [cat[1]];
    VisitedSnoc([], cat[0]);
    VisitedSnoc(first, cat[1]);
    RunAt(0, MAPSIZE, 61);
    RunAt(0, MAPSIZE, 62);
    RunAt(0, MAPSIZE, 63);
    RunAt(192, MAPSIZE, 0);
    assert v[61] == 61 && v[62] == 62 && v[63] == 63 && v[64] == 192;
    BitsOne(cat[0]);
    BitsOne(cat[1]);
    BitsConcat(first, [cat[1]]);
    NodeBitsExact(cat[0], 61); NodeBitsExact(cat[1], 61);
    NodeBitsExact(cat[0], 62); NodeBitsExact(cat[0], 63);
    NodeBitsExact(cat[0], 192); NodeBitsExact(cat[1], 192);
    assert 61 !in s && 62 in s && 63 in s && 192 !in s;
    assert RunBefore(v, s, 62) == 0 && RunBefore(v, s, 63) == 1 && RunBefore(v, s, 64) == 2;
    assert Jump(v, 64) && BadEnd(v, s, 64);
    BelowHighbit(cat);
    FaithfulExactly(cat, Highbit(cat));
    assert BadBefore(v, s, |v| + 1);
  }

  // ---------- the parser ----------

  /** Values are 1-based, and every category fits a bitmap. */
  ghost predicate GoodTables(p: Policy) {
    forall w | w in p.cats :: 1 <= p.cats[w] <= LIMIT - MAPSIZE
  }

  /** Advances to a delimiter or the end, and past the delimiter. */
  method NextWord(s: string, pos: nat, stops: set<char>) returns (word: string, delim: Option<char>, next: nat)
    requires pos <= |s|
    ensures pos <= next <= |s| && (delim.Some? ==> pos < next)
    ensures Cut(word, delim, s[next..]) == CutAt(s[pos..], stops)
  {
    var q := pos;
    while q < |s| && s[q] !in stops
      invariant pos <= q <= |s| && Free(s[pos..q], stops)
    {
      assert s[pos..q + 1] == s[pos..q] + [s[q]];
      q := q + 1;
    }
    CutFrom(s, pos, q, stops);
    word := s[pos..q];
    delim, next := if q < |s| then Some(s[q]) else None, if q < |s| then q + 1 else q;
  }

  /** The cut is at the first delimiter. */
  lemma CutFrom(s: string, pos: nat, q: nat, stops: set<char>)
    requires pos <= q <= |s| && Free(s[pos..q], stops) && (q < |s| ==> s[q] in stops)
    ensures CutAt(s[pos..], stops) ==
      if q < |s| then Cut(s[pos..q], Some(s[q]), s[q + 1..]) else Cut(s[pos..q], None, s[q..])
  {
    CutWord(s[pos..q], s[q..], stops);
    assert s[pos..] == s[pos..q] + s[q..];
    if q < |s| { assert s[q..][0] == s[q] && s[q..][1..] == s[q + 1..]; }
  }

  /** Sets the categories from a to b - 1. */
  method SetRange(a: nat, b: nat, cat: Ebitmap) returns (ok: bool)
    requires 1 <= a < b <= LIMIT - MAPSIZE && cat.Valid()
    modifies cat
    ensures ok && cat.Valid() && cat.Contents() == old(cat.Contents()) + Interval(a, b - 1)
  {
    for i := a to b
      invariant cat.Valid() && cat.Contents() == old(cat.Contents()) + Interval(a, i - 1)
    {
      var error := cat.SetBit(i, true);
      if error.Some? { return false; }
      assert Interval(a, i) == Interval(a, i - 1) + {i};
      SetAssoc(old(cat.Contents()), Interval(a, i - 1), {i});
    }
    ok := true;
  }

  /** Sets a category, or the categories of a range. */
  method SetWord(p: Policy, w: string, cat: Ebitmap) returns (ok: bool)
    requires GoodTables(p) && cat.Valid()
    modifies cat
    ensures cat.Valid() && (ok <==> WordCats(p, w).Some?)
    ensures ok ==> cat.Contents() == old(cat.Contents()) + WordCats(p, w).value
  {
    var name, dot, next := NextWord(w, 0, {'.'});
    assert w[0..] == w;
    if name !in p.cats { return false; }
    var value := p.cats[name];
    var error := cat.SetBit(value - 1, true);
    if error.Some? { return false; }
    if dot.None? { return true; }
    var last := w[next..];
    if last !in p.cats { return false; }
    if value >= p.cats[last] { return false; }
    ok := SetRange(value, p.cats[last], cat);
    IntervalFirst(value - 1, p.cats[last] - 1);
    SetAssoc(old(cat.Contents()), {value - 1}, Interval(value, p.cats[last] - 1));
  }

  lemma IntervalFirst(a: nat, b: nat)
    requires a <= b
    ensures Interval(a, b) == {a} + Interval(a + 1, b)
  {
  }

  method ParseCategories(p: Policy, s: string, pos: nat, cat: Ebitmap)
    returns (ok: bool, delim: Option<char>, next: nat)
    requires GoodTables(p) && cat.Valid() && pos <= |s|
    modifies cat
    ensures cat.Valid() && next <= |s| && (ok <==> ParseCats(p, s[pos..]).Some?)
    ensures ok ==> Some(Cats(cat.Contents(), delim, s[next..])) == Added(old(cat.Contents()), ParseCats(p, s[pos..]))
  {
    next := pos;
    ghost var before := cat.Contents();
    while true
      invariant pos <= next <= |s| && cat.Valid()
      invariant Added(before, ParseCats(p, s[pos..])) == Added(cat.Contents(), ParseCats(p, s[next..]))
      decreases |s| - next
    {
      ghost var done, from := cat.Contents(), next;
      var word;
      word, delim, next := NextWord(s, next, CATEGORY_STOPS);
      ok := SetWord(p, word, cat);
      if !ok { return; }
      if delim != Some(',') { return; }
      AddedTwice(done, WordCats(p, word).value, ParseCats(p, s[next..]));
    }
  }

  function Added(cats: set<nat>, r: Option<Cats>): Option<Cats> {
    if r.None? then None else Some(r.value.(cats := cats + r.value.cats))
  }

  lemma AddedTwice(a: set<nat>, b: set<nat>, r: Option<Cats>)
    ensures Added(a + b, r) == Added(a, Added(b, r))
  {
    if r.Some? { SetAssoc(a, b, r.value.cats); }
  }

  /** One level, its sensitivity already cut off. */
  method ParseOneLevel(p: Policy, s: string, word: string, delim: Option<char>, pos: nat)
    returns (ok: bool, sens: nat, cat: Ebitmap, delim': Option<char>, next: nat)
    requires GoodTables(p) && pos <= |s|
    ensures ok <==> ParseLevel(p, Cut(word, delim, s[pos..])).Some?
    ensures fresh(cat) && cat.Valid() && next <= |s|
    ensures ok ==> ParseLevel(p, Cut(word, delim, s[pos..])) == Some(Parsed(sens, cat.Contents(), delim', s[next..]))
  {
    cat := new Ebitmap();
    delim', next := delim, pos;
    if word !in p.levels { return false, 0, cat, delim, pos; }
    sens := p.levels[word];
    ok := true;
    if delim == Some(':') {
      ok, delim', next := ParseCategories(p, s, pos, cat);
      NothingAdded(ParseCats(p, s[pos..]));
    }
  }

  lemma NothingAdded(r: Option<Cats>)
    ensures Added({}, r) == r
  {
    if r.Some? { assert {} + r.value.cats == r.value.cats; }
  }

  method ContextToSid(p: Policy, s: string) returns (ok: bool, r: Range, next: nat)
    requires GoodTables(p)
    ensures ok <==> Parse(p, s).Some?
    ensures ok ==>
      Canonical(r.low.cat) && Canonical(r.high.cat) && Is(Parse(p, s).value, r) && next == Parse(p, s).value.next
  {
    var none := Level(0, []);
    r, next := Range(none, none), 0;
    assert s[0..] == s;
    var word, delim, pos := NextWord(s, 0, LOW_STOPS);
    var sens, cat;
    ok, sens, cat, delim, pos := ParseOneLevel(p, s, word, delim, pos);
    if !ok { return; }
    r := r.(low := Level(sens, cat.nodes));
    if delim == Some('-') {
      word, delim, pos := NextWord(s, pos, HIGH_STOPS);
      ok, sens, cat, delim, pos := ParseOneLevel(p, s, word, delim, pos);
      if !ok { return; }
      r := r.(high := Level(sens, cat.nodes));
      if delim == Some('-') { word, delim, pos := NextWord(s, pos, HIGH_STOPS); }
    } else {
      r := r.(high := r.low);
    }
    next := pos + 1;
  }

  /** Two ranges with the same meaning are the same range. */
  lemma SameMeaning(m: Meaning, r: Range, r': Range)
    requires Is(m, r) && Canonical(r.low.cat) && Canonical(r.high.cat) && Canonical(r'.low.cat) &&
      Canonical(r'.high.cat)
    ensures Is(m, r') <==> r' == r
  {
    if Is(m, r') {
      CanonicalUnique(r.low.cat, r'.low.cat);
      CanonicalUnique(r.high.cat, r'.high.cat);
    }
  }

  /** Printing a range and parsing the text never fails, and gives the very same range back
      if and only if both category sets are printed faithfully. */
  method PrintThenParse(p: Policy, r: Range) returns (r': Range)
    requires GoodNames(p) && GoodTables(p) && RangeOk(p, r) && NoZero(RangeText(p, r))
    ensures r' == r <==> Faithful(r.low.cat) && Faithful(r.high.cat)
  {
    var text := ToString(p, r);
    var ok, next;
    ok, r', next := ContextToSid(p, text);
    RoundTrip(p, r);
    SameMeaning(Parse(p, text).value, r', r);
  }
}
