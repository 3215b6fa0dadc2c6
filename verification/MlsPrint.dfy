/** Printing the sensitivity range of a context into a buffer of computed length. */
module MlsPrint {
  import opened Wrappers
  import opened Ebitmap
  import opened MlsRuns

  /** The names of sensitivities and categories by value, and values by name. Further
      names may be aliases. */
  datatype Policy = Policy(sensNames: seq<string>, catNames: seq<string>, levels: map<string, nat>, cats: map<string,
                           nat>)

  datatype Level = Level(sens: nat, cat: seq<Node>)

  datatype Range = Range(low: Level, high: Level)

  ghost predicate LevelOk(p: Policy, l: Level) {
    1 <= l.sens <= |p.sensNames| && Canonical(l.cat) && Within(Bits(l.cat), 0, |p.catNames|)
  }

  ghost predicate RangeOk(p: Policy, r: Range) {
    LevelOk(p, r.low) && LevelOk(p, r.high)
  }

  // ---------- the text ----------

  function CatName(p: Policy, i: nat): string {
    if i < |p.catNames| then p.catNames[i] else ""
  }

  function SensName(p: Policy, s: nat): string {
    if 1 <= s <= |p.sensNames| then p.sensNames[s - 1] else ""
  }

  function ItemText(p: Policy, it: Item): string {
    CatName(p, it.first) + if it.last.None? then "" else "." + CatName(p, it.last.value)
  }

  function ItemsText(p: Policy, items: seq<Item>): string {
    if items == [] then ""
    else
      var n := |items| - 1;
      ItemsText(p, items[..n]) + (if n == 0 then ":" else ",") + ItemText(p, items[n])
  }

  function LevelText(p: Policy, l: Level): string {
    SensName(p, l.sens) + ItemsText(p, Items(l.cat))
  }

  /** The high level is left out when it equals the low one. */
  function RangeText(p: Policy, r: Range): string {
    ":" + LevelText(p, r.low) + if r.low == r.high then "" else "-" + LevelText(p, r.high)
  }

  /** A range with one level for both ends is written once. */
  lemma RangeShape(p: Policy, l: Level, h: Level)
    ensures RangeText(p, Range(l, l)) == ":" + LevelText(p, l)
    ensures l != h ==> RangeText(p, Range(l, h)) == ":" + LevelText(p, l) + ("-" + LevelText(p, h))
  {
    assert ":" + LevelText(p, l) + "" == ":" + LevelText(p, l);
  }

  lemma OneItem(p: Policy, x: Item)
    ensures ItemsText(p, [x]) == ":" + ItemText(p, x)
  {
    ItemsTextSnoc(p, [], x);
    assert [] + [x] == [x] && "" + ":" == ":";
  }

  lemma OneMoreItem(p: Policy, items: seq<Item>, x: Item)
    requires items != []
    ensures ItemsText(p, items + [x]) == ItemsText(p, items) + "," + ItemText(p, x)
  {
    ItemsTextSnoc(p, items, x);
  }

  /** How single categories and ranges are written, whatever the names. */
  lemma ItemsShape(p: Policy, a: nat, b: nat, c: nat, d: nat)
    requires a < |p.catNames| && b < |p.catNames| && c < |p.catNames| && d < |p.catNames|
    ensures ItemsText(p, [Item(a, None)] + [Item(b, Some(c))] + [Item(d, None)]) ==
            ":" + p.catNames[a] + "," + (p.catNames[b] + ("." + p.catNames[c])) + "," + p.catNames[d]
  {
    var x, y, z := Item(a, None), Item(b, Some(c)), Item(d, None);
    OneItem(p, x);
    OneMoreItem(p, [x], y);
    OneMoreItem(p, [x] + [y], z);
    assert p.catNames[a] + "" == p.catNames[a] && p.catNames[d] + "" == p.catNames[d];
  }

  lemma ItemsTextSnoc(p: Policy, items: seq<Item>, it: Item)
    ensures ItemsText(p, items + [it]) == ItemsText(p, items) + (if items == [] then ":" else ",") + ItemText(p, it)
  {
    assert (items + [it])[..|items|] == items;
  }

  ghost predicate Open(items: seq<Item>) {
    items != [] && items[|items| - 1].last.None?
  }

  /** Ending a run prints a separator and the last category. */
  lemma CloseText(p: Policy, items: seq<Item>, r: nat, e: nat)
    requires Open(items)
    ensures ItemsText(p, Close(items, r, e)) ==
            ItemsText(p, items) + (if r > 2 then "." + CatName(p, e) else if r == 2 then "," + CatName(p, e) else "")
  {
    var n := |items| - 1;
    if r > 2 {
      var it := items[n].(last := Some(e));
      ItemsTextSnoc(p, items[..n], it);
      ItemsTextSnoc(p, items[..n], items[n]);
      assert items == items[..n] + [items[n]];
      assert ItemText(p, it) == ItemText(p, items[n]) + ("." + CatName(p, e));
      Grow(ItemsText(p, items[..n]), if n == 0 then ":" else ",", ItemText(p, items[n]), "." + CatName(p, e));
    } else if r == 2 {
      ItemsTextSnoc(p, items, Item(e, None));
      assert ItemText(p, Item(e, None)) == CatName(p, e);
      Grow(ItemsText(p, items), ",", CatName(p, e), "");
    }
  }

  /** Beginning a run prints a separator and its first category. */
  lemma OpenText(p: Policy, items: seq<Item>, i: nat)
    ensures ItemsText(p, items + [Item(i, None)]) ==
      ItemsText(p, items) + ([if items == [] then ':' else ','] + CatName(p, i))
  {
    ItemsTextSnoc(p, items, Item(i, None));
    assert ItemText(p, Item(i, None)) == CatName(p, i);
    Grow(ItemsText(p, items), if items == [] then ":" else ",", CatName(p, i), "");
  }

  lemma Grow(a: string, b: string, c: string, d: string)
    ensures a + b + (c + d) == a + b + c + d
    ensures a + b + c == a + (b + c)
  {
  }

  function Closing(p: Policy, r: nat, e: nat): string {
    if r > 2 then "." + CatName(p, e) else if r == 2 then "," + CatName(p, e) else ""
  }

  /** Some position before k is in the set. */
  predicate Begun(v: seq<nat>, s: set<nat>, k: nat)
    requires k <= |v|
  {
    k > 0 && (v[k - 1] in s || Begun(v, s, k - 1))
  }

  /** What visiting position k prints. */
  function Emitted(p: Policy, v: seq<nat>, s: set<nat>, k: nat): string
    requires k < |v|
  {
    var r := RunBefore(v, s, k);
    if v[k] in s && r == 0 then [if Begun(v, s, k) then ',' else ':'] + CatName(p, v[k])
    else if v[k] !in s && v[k] > 0 then Closing(p, r, v[k] - 1)
    else ""
  }

  /** What has been printed when k positions have been visited. */
  function TextTo(p: Policy, v: seq<nat>, s: set<nat>, k: nat): string
    requires k <= |v|
  {
    if k == 0 then "" else TextTo(p, v, s, k - 1) + Emitted(p, v, s, k - 1)
  }

  /** It is the text of the items found so far. */
  lemma TextIsItems(p: Policy, v: seq<nat>, s: set<nat>, k: nat)
    requires k <= |v|
    ensures TextTo(p, v, s, k) == ItemsText(p, ScanTo(v, s, k).items)
    ensures Begun(v, s, k) <==> ScanTo(v, s, k).items != []
  {
    TextKept(p, v, s, k);
  }

  /** What has been printed, and whether anything has, agrees with the items. */
  ghost predicate IsText(p: Policy, v: seq<nat>, s: set<nat>, k: nat)
    requires k <= |v|
  {
    TextTo(p, v, s, k) == ItemsText(p, ScanTo(v, s, k).items) && (Begun(v, s, k) <==> ScanTo(v, s, k).items != [])
  }

  lemma TextKept(p: Policy, v: seq<nat>, s: set<nat>, k: nat)
    requires k <= |v|
    ensures IsText(p, v, s, k)
  {
    for i := 0 to k
      invariant IsText(p, v, s, i)
    {
      TextNext(p, v, s, i);
    }
  }

  lemma TextNext(p: Policy, v: seq<nat>, s: set<nat>, k: nat)
    requires k < |v| && IsText(p, v, s, k)
    ensures IsText(p, v, s, k + 1)
  {
    var before, after := ScanTo(v, s, k).items, ScanTo(v, s, k + 1).items;
    assert ItemsText(p, after) == ItemsText(p, before) + Emitted(p, v, s, k) by { VisitText(p, v, s, k); }
    assert Begun(v, s, k + 1) <==> after != [] by { VisitText(p, v, s, k); }
  }

  lemma VisitText(p: Policy, v: seq<nat>, s: set<nat>, k: nat)
    requires k < |v| && (Begun(v, s, k) <==> ScanTo(v, s, k).items != [])
    ensures ItemsText(p, ScanTo(v, s, k + 1).items) == ItemsText(p, ScanTo(v, s, k).items) + Emitted(p, v, s, k)
    ensures Begun(v, s, k + 1) <==> ScanTo(v, s, k + 1).items != []
  {
    ScanState(v, s, k);
    if v[k] in s { VisitOn(p, ScanTo(v, s, k), v[k]); } else { VisitOff(p, ScanTo(v, s, k), v[k]); }
  }

  lemma VisitOn(p: Policy, st: Scan, i: nat)
    ensures var after := Visit(st, i, true);
      && (st.run == 0 ==> after.items != [])
      && ItemsText(p, after.items) == ItemsText(p, st.items) +
           if st.run == 0 then [if st.items == [] then ':' else ','] + CatName(p, i) else ""
  {
    if st.run == 0 { OpenText(p, st.items, i); }
  }

  lemma VisitOff(p: Policy, st: Scan, i: nat)
    requires st.run > 0 ==> Open(st.items)
    ensures var after := Visit(st, i, false);
      && (after.items == [] <==> st.items == [])
      && ItemsText(p, after.items) == ItemsText(p, st.items) + if i > 0 then Closing(p, st.run, i - 1) else ""
  {
    if st.run > 1 && i > 0 { CloseText(p, st.items, st.run, i - 1); }
  }

  /** What ending the last run prints. */
  function Ending(p: Policy, v: seq<nat>, s: set<nat>): string {
    if v == [] then "" else Closing(p, RunBefore(v, s, |v|), v[|v| - 1])
  }

  lemma LastText(p: Policy, v: seq<nat>, s: set<nat>)
    ensures ItemsText(p, AllItems(v, s)) == TextTo(p, v, s, |v|) + Ending(p, v, s)
  {
    TextIsItems(p, v, s, |v|);
    ScanState(v, s, |v|);
    var st := ScanTo(v, s, |v|);
    if v != [] && st.run > 1 { CloseText(p, st.items, st.run, v[|v| - 1]); }
  }

  /** How much has been printed when k positions have been visited. */
  function LenTo(p: Policy, v: seq<nat>, s: set<nat>, k: nat): nat
    requires k <= |v|
  {
    if k == 0 then 0 else LenTo(p, v, s, k - 1) + |Emitted(p, v, s, k - 1)|
  }

  lemma {:induction false} LenIsText(p: Policy, v: seq<nat>, s: set<nat>, k: nat)
    requires k <= |v|
    ensures LenTo(p, v, s, k) == |TextTo(p, v, s, k)|
  {
    if k > 0 { LenIsText(p, v, s, k - 1); }
  }

  lemma LongerTo(p: Policy, v: seq<nat>, s: set<nat>, k: nat, m: nat)
    requires k <= m <= |v|
    ensures LenTo(p, v, s, k) <= LenTo(p, v, s, m)
  {
    for i := k to m
      invariant LenTo(p, v, s, k) <= LenTo(p, v, s, i)
    {
      LongerNext(p, v, s, i);
    }
  }

  lemma LongerNext(p: Policy, v: seq<nat>, s: set<nat>, k: nat)
    requires k < |v|
    ensures LenTo(p, v, s, k) <= LenTo(p, v, s, k + 1)
  {
  }

  /** The text so far never exceeds the whole text. */
  lemma TextGrows(p: Policy, v: seq<nat>, s: set<nat>, k: nat)
    requires k <= |v|
    ensures |TextTo(p, v, s, k)| <= |ItemsText(p, AllItems(v, s))|
  {
    LenIsText(p, v, s, k);
    LongerTo(p, v, s, k, |v|);
    LenIsWhole(p, v, s);
  }

  lemma LenIsWhole(p: Policy, v: seq<nat>, s: set<nat>)
    ensures LenTo(p, v, s, |v|) + |Ending(p, v, s)| == |ItemsText(p, AllItems(v, s))|
  {
    LenIsText(p, v, s, |v|);
    LastText(p, v, s);
  }

  /** The category printed at the end of a run has a name. */
  lemma EndHasName(v: seq<nat>, s: set<nat>, n: nat, k: nat)
    requires Visits(v, s, n) && 0 < k <= |v| && RunBefore(v, s, k) > 0
    ensures k < |v| ==> 0 < v[k] <= n
    ensures k == |v| ==> v[k - 1] < n
  {
    assert v[k - 1] in s;
    if k < |v| {
      assert v[k - 1] < v[k];
      if Jump(v, k) { assert Skips(v, s, n, k); }
    }
  }

  // ---------- the computed length ----------

  /** The length visiting position k adds. */
  method VisitLen(p: Policy, v: seq<nat>, s: set<nat>, k: nat, range: nat) returns (more: nat, range': nat)
    requires Visits(v, s, |p.catNames|) && k < |v| && range == RunBefore(v, s, k)
    ensures more == |Emitted(p, v, s, k)| && LenTo(p, v, s, k + 1) == LenTo(p, v, s, k) + more
    ensures range' == RunBefore(v, s, k + 1)
  {
    more := 0;
    if v[k] in s {
      if range == 0 { more := |p.catNames[v[k]]| + 1; }
    } else if range > 1 {
      EndHasName(v, s, |p.catNames|, k);
      more := |p.catNames[v[k] - 1]| + 1;
    }
    range' := if v[k] in s then range + 1 else 0;
  }

  method LevelLen(p: Policy, l: Level) returns (len: nat)
    requires LevelOk(p, l)
    ensures len == |LevelText(p, l)|
  {
    var v, s := Visited(l.cat), Bits(l.cat);
    VisitedVisits(l.cat, |p.catNames|);
    len := |p.sensNames[l.sens - 1]|;
    var range := 0;
    for k := 0 to |v|
      invariant range == RunBefore(v, s, k)
      invariant len == |SensName(p, l.sens)| + LenTo(p, v, s, k)
    {
      var more;
      more, range := VisitLen(p, v, s, k, range);
      len := len + more;
    }
    LenIsWhole(p, v, s);
    if range > 1 {
      EndHasName(v, s, |p.catNames|, |v|);
      len := len + |p.catNames[v[|v| - 1]]| + 1;
    }
  }

  method ComputeContextLen(p: Policy, r: Range) returns (len: nat)
    requires RangeOk(p, r)
    ensures len == |RangeText(p, r)|
  {
    var low := LevelLen(p, r.low);
    len := 1 + low;
    if r.low == r.high { return; }
    var high := LevelLen(p, r.high);
    len := len + 1 + high;
  }

  // ---------- the writer ----------

  /** The buffer holds the text up to the cursor. */
  ghost predicate Holds(buf: array<char>, at: nat, text: string)
    reads buf
  {
    at == |text| < buf.Length && buf[..at] == text
  }

  /** Copies a name and its closing zero; the cursor stays on the zero. */
  method Strcpy(buf: array<char>, at: nat, name: string, ghost text: string) returns (at': nat)
    requires at == |text| && at + |name| < buf.Length && buf[..at] == text
    modifies buf
    ensures Holds(buf, at', text + name) && buf[at'] == '\0'
  {
    for i := 0 to |name|
      invariant buf[..at + i] == text + name[..i]
    {
      buf[at + i] := name[i];
      assert buf[..at + i + 1] == buf[..at + i] + [name[i]];
    }
    assert name[..|name|] == name;
    buf[at + |name|] := '\0';
    at' := at + |name|;
    assert buf[..at'] == text + name;
  }

  /** A separator and a name. */
  method Put(buf: array<char>, at: nat, sep: char, name: string, ghost text: string) returns (at': nat)
    requires Holds(buf, at, text) && |text| + 1 + |name| < buf.Length
    modifies buf
    ensures Holds(buf, at', text + ([sep] + name)) && buf[at'] == '\0'
  {
    buf[at] := sep;
    assert buf[..at + 1] == text + [sep];
    at' := Strcpy(buf, at + 1, name, text + [sep]);
    assert text + [sep] + name == text + ([sep] + name);
  }

  /** Writes what visiting position k prints, or what ending the last run prints. */
  method WriteVisit(p: Policy, v: seq<nat>, s: set<nat>, k: nat, range: nat, wroteSep: bool, buf: array<char>, at0: nat,
                    ghost text: string)
    returns (at: nat)
    requires Visits(v, s, |p.catNames|) && k < |v| && range == RunBefore(v, s, k) && (wroteSep <==> Begun(v, s, k))
    requires Holds(buf, at0, text) && buf[at0] == '\0' && |text| + |Emitted(p, v, s, k)| < buf.Length
    modifies buf
    ensures Holds(buf, at, text + Emitted(p, v, s, k)) && buf[at] == '\0'
  {
    at := at0;
    if v[k] in s {
      if range == 0 { at := Put(buf, at, if wroteSep then ',' else ':', p.catNames[v[k]], text); }
    } else if range > 1 {
      EndHasName(v, s, |p.catNames|, k);
      at := Put(buf, at, if range > 2 then '.' else ',', p.catNames[v[k] - 1], text);
    }
  }

  method WriteEnding(p: Policy, v: seq<nat>, s: set<nat>, range: nat, buf: array<char>, at0: nat, ghost text: string)
    returns (at: nat)
    requires Visits(v, s, |p.catNames|) && range == RunBefore(v, s, |v|)
    requires Holds(buf, at0, text) && buf[at0] == '\0' && |text| + |Ending(p, v, s)| < buf.Length
    modifies buf
    ensures Holds(buf, at, text + Ending(p, v, s)) && buf[at] == '\0'
  {
    at := at0;
    if range > 1 {
      EndHasName(v, s, |p.catNames|, |v|);
      at := Put(buf, at, if range > 2 then '.' else ',', p.catNames[v[|v| - 1]], text);
    }
  }

  lemma NextVisit(p: Policy, v: seq<nat>, s: set<nat>, k: nat)
    requires k < |v|
    ensures TextTo(p, v, s, k + 1) == TextTo(p, v, s, k) + Emitted(p, v, s, k)
    ensures RunBefore(v, s, k + 1) == if v[k] in s then RunBefore(v, s, k) + 1 else 0
    ensures Begun(v, s, k + 1) <==> Begun(v, s, k) || v[k] in s
  {
  }

  method WriteNext(p: Policy, v: seq<nat>, s: set<nat>, k: nat, range: nat, wroteSep: bool, buf: array<char>, at0: nat,
                   ghost head: string)
    returns (at: nat, range': nat, wroteSep': bool)
    requires Visits(v, s, |p.catNames|) && k < |v| && range == RunBefore(v, s, k) && (wroteSep <==> Begun(v, s, k))
    requires |head| + |ItemsText(p, AllItems(v, s))| < buf.Length
    requires Holds(buf, at0, head + TextTo(p, v, s, k)) && buf[at0] == '\0'
    modifies buf
    ensures range' == RunBefore(v, s, k + 1) && (wroteSep' <==> Begun(v, s, k + 1))
    ensures Holds(buf, at, head + TextTo(p, v, s, k + 1)) && buf[at] == '\0'
  {
    TextGrows(p, v, s, k + 1);
    Regroup(head, TextTo(p, v, s, k), Emitted(p, v, s, k));
    NextVisit(p, v, s, k);
    at := WriteVisit(p, v, s, k, range, wroteSep, buf, at0, head + TextTo(p, v, s, k));
    range', wroteSep' := if v[k] in s then range + 1 else 0, wroteSep || v[k] in s;
  }

  method WriteVisits(p: Policy, v: seq<nat>, s: set<nat>, buf: array<char>, at0: nat, ghost head: string)
    returns (at: nat, range: nat)
    requires Visits(v, s, |p.catNames|) && |head| + |ItemsText(p, AllItems(v, s))| < buf.Length
    requires Holds(buf, at0, head) && buf[at0] == '\0'
    modifies buf
    ensures range == RunBefore(v, s, |v|)
    ensures Holds(buf, at, head + TextTo(p, v, s, |v|)) && buf[at] == '\0'
  {
    at, range := at0, 0;
    var wroteSep := false;
    Regroup(head, "", "");
    for k := 0 to |v|
      invariant range == RunBefore(v, s, k) && (wroteSep <==> Begun(v, s, k))
      invariant Holds(buf, at, head + TextTo(p, v, s, k)) && buf[at] == '\0'
    {
      at, range, wroteSep := WriteNext(p, v, s, k, range, wroteSep, buf, at, head);
    }
  }

  /** Writes the category set after the sensitivity. */
  method WriteCategories(p: Policy, v: seq<nat>, s: set<nat>, buf: array<char>, at0: nat, ghost head: string)
    returns (at: nat)
    requires Visits(v, s, |p.catNames|) && |head| + |ItemsText(p, AllItems(v, s))| < buf.Length
    requires Holds(buf, at0, head) && buf[at0] == '\0'
    modifies buf
    ensures Holds(buf, at, head + ItemsText(p, AllItems(v, s))) && buf[at] == '\0'
  {
    var range;
    at, range := WriteVisits(p, v, s, buf, at0, head);
    LastText(p, v, s);
    Regroup(head, TextTo(p, v, s, |v|), Ending(p, v, s));
    at := WriteEnding(p, v, s, range, buf, at, head + TextTo(p, v, s, |v|));
  }

  /** Writes a level at the cursor, staying within its text. */
  method WriteLevel(p: Policy, l: Level, buf: array<char>, at0: nat, ghost text: string) returns (at: nat)
    requires LevelOk(p, l) && at0 == |text| && |text| + |LevelText(p, l)| < buf.Length && buf[..at0] == text
    modifies buf
    ensures Holds(buf, at, text + LevelText(p, l)) && buf[at] == '\0'
  {
    VisitedVisits(l.cat, |p.catNames|);
    at := Strcpy(buf, at0, p.sensNames[l.sens - 1], text);
    at := WriteCategories(p, Visited(l.cat), Bits(l.cat), buf, at, text + SensName(p, l.sens));
    Regroup(text, SensName(p, l.sens), ItemsText(p, Items(l.cat)));
  }

  lemma Regroup(a: string, b: string, c: string)
    ensures a + b + c == a + (b + c)
    ensures a + "" == a
  {
  }

  /** Writes the range at the start of the buffer; the cursor ends on the closing zero. */
  method SidToContext(p: Policy, r: Range, buf: array<char>) returns (at: nat)
    requires RangeOk(p, r) && |RangeText(p, r)| < buf.Length
    modifies buf
    ensures Holds(buf, at, RangeText(p, r)) && buf[at] == '\0'
  {
    buf[0] := ':';
    at := WriteLevel(p, r.low, buf, 1, ":");
    if r.low != r.high {
      ghost var text := ":" + LevelText(p, r.low);
      buf[at] := '-';
      assert buf[..at + 1] == text + "-";
      Regroup(text, "-", LevelText(p, r.high));
      at := WriteLevel(p, r.high, buf, at + 1, text + "-");
    }
  }

  predicate NoZero(text: string) {
    forall i | 0 <= i < |text| :: text[i] != '\0'
  }

  /** Copies up to the closing zero, into a buffer of the given size. */
  method CopyString(buf: array<char>, from: nat, size: nat, ghost text: string) returns (copy: string)
    requires from + |text| < buf.Length && buf[from..from + |text|] == text && NoZero(text)
    requires buf[from + |text|] == '\0' && |text| + 1 <= size
    ensures copy == text && |copy| + 1 <= size
  {
    copy := "";
    var i := from;
    while buf[i] != '\0'
      invariant from <= i <= from + |text| && copy == buf[from..i]
      invariant i < from + |text| ==> buf[i] == text[i - from]
      decreases from + |text| - i
    {
      assert i < from + |text|;
      copy := copy + [buf[i]];
      i := i + 1;
      assert i < from + |text| ==> buf[i] == buf[from..from + |text|][i - from];
    }
  }

  /** The cursor is moved back by the computed length, which lands on the start of the
      buffer; the text without its leading colon then fits the second buffer exactly. */
  method ToString(p: Policy, r: Range) returns (text: string)
    requires RangeOk(p, r) && NoZero(RangeText(p, r))
    ensures text == RangeText(p, r)[1..]
  {
    var l := ComputeContextLen(p, r);
    var len := l + 1;
    var buf := new char[len];
    var at := SidToContext(p, r, buf);
    var start := at - (len - 1);
    assert start == 0;
    assert buf[1..at] == RangeText(p, r)[1..];
    text := CopyString(buf, start + 1, len - 1, RangeText(p, r)[1..]);
  }
}
