/** Rules, their 256-bit level bitmaps, and the choice of the rules of a category. */
module Dispatch {
  import opened Option

  const BITMAP_BYTES := 32

  type Bitmap = b: seq<bv8> | |b| == BITMAP_BYTES witness seq(BITMAP_BYTES, _ => 0)

  /** C's division and remainder by 8, which truncate toward zero. */
  function Quot8(a: int): (q: int)
    requires -1 <= a
  {
    if a < 0 then 0 else a / 8
  }

  function Rem8(a: int): (r: int)
    requires -1 <= a
    ensures -1 <= r < 8
  {
    if a < 0 then a else a % 8
  }

  function LowByte(x: bv32): (b: bv8) {
    (x & 0xFF) as bv8
  }

  predicate ByteBit(b: bv8, k: nat)
    requires k < 8
  {
    (b >> (7 - k)) & 1 == 1
  }

  /** The negation of zlog_category_needless_level. */
  predicate Bit(bitmap: Bitmap, level: nat)
    requires level < 256
  {
    ByteBit(bitmap[level / 8], level % 8)
  }

  /** The four comparisons of a rule: '.' from a level up, '=' one level, '!' all but one, '*' all. */
  datatype Compare = FromLevel | SameLevel | OtherLevel | AnyLevel

  /** Whether zlog_rule_output calls the rule's output for an event of the level. */
  predicate Wants(compare: Compare, ruleLevel: int, level: nat) {
    match compare
    case AnyLevel => true
    case FromLevel => level >= ruleLevel
    case SameLevel => level == ruleLevel
    case OtherLevel => level != ruleLevel
  }

  lemma LevelsWanted(ruleLevel: int, level: nat)
    ensures Wants(FromLevel, ruleLevel, level) <==> ruleLevel <= level
    ensures Wants(SameLevel, ruleLevel, level) <==> ruleLevel == level
    ensures Wants(OtherLevel, ruleLevel, level) <==> ruleLevel != level
    ensures Wants(AnyLevel, ruleLevel, level)
  {
  }

  /** 1 << (7 - r), its complement, and ~(0xFF << (8 - r)), cut to a byte on assignment. */
  function SingleMask(r: int): (m: bv8)
    requires -1 <= r < 8
  {
    LowByte((1 as bv32) << (7 - r))
  }

  function ClearMask(r: int): (m: bv8)
    requires -1 <= r < 8
  {
    LowByte(!((1 as bv32) << (7 - r)))
  }

  function TailMask(r: int): (m: bv8)
    requires -1 <= r < 8
  {
    LowByte(!((0xFF as bv32) << (8 - r)))
  }

  lemma SetsOneBit(r: int, m: bv8)
    requires -1 <= r < 8 && m == 0 | SingleMask(r)
    ensures forall k :: 0 <= k < 8 ==> (ByteBit(m, k) <==> k == r)
  {
  }

  lemma ClearsOneBit(r: int, m: bv8)
    requires -1 <= r < 8 && m == 0xFF & ClearMask(r)
    ensures forall k :: 0 <= k < 8 ==> (ByteBit(m, k) <==> k != r)
  {
  }

  lemma SetsTailBits(r: int, m: bv8)
    requires -1 <= r < 8 && m == 0 | TailMask(r)
    ensures forall k :: 0 <= k < 8 ==> (ByteBit(m, k) <==> r <= k)
  {
  }

  lemma PlainBytes()
    ensures forall k :: 0 <= k < 8 ==> !ByteBit(0, k) && ByteBit(0xFF, k)
  {
  }

  lemma OrBits(x: bv8, y: bv8, k: nat)
    requires k < 8
    ensures ByteBit(x | y, k) <==> ByteBit(x, k) || ByteBit(y, k)
  {
  }

  /** memset over the bytes from an index on. */
  function Memset(b: Bitmap, from: nat, byte: bv8): (r: Bitmap)
    requires from <= BITMAP_BYTES
  {
    b[..from] + seq(BITMAP_BYTES - from, _ => byte)
  }

  function Zeros(): (b: Bitmap)
    ensures forall i :: 0 <= i < BITMAP_BYTES ==> b[i] == 0
  {
    seq(BITMAP_BYTES, _ => 0)
  }

  /**
   The bitmap that zlog_rule_new fills in. An unknown level name gives the level -1; with C's
   truncating division it still fills a bitmap that agrees with zlog_rule_output.
   */
  method BuildBitmap(compare: Compare, level: int) returns (bitmap: Bitmap)
    requires -1 <= level < 256
    ensures forall l :: 0 <= l < 256 ==> (Bit(bitmap, l) <==> Wants(compare, level, l))
  {
    var i, r := Quot8(level), Rem8(level);
    match compare {
      case SameLevel =>
        bitmap := Memset(Zeros(), 0, 0);
        bitmap := bitmap[i := bitmap[i] | SingleMask(r)];
        BytesGiveBits(bitmap, i, 0, bitmap[i], 0);
        SetsOneBit(r, bitmap[i]);
      case OtherLevel =>
        bitmap := Memset(Zeros(), 0, 0xFF);
        bitmap := bitmap[i := bitmap[i] & ClearMask(r)];
        BytesGiveBits(bitmap, i, 0xFF, bitmap[i], 0xFF);
        ClearsOneBit(r, bitmap[i]);
      case AnyLevel =>
        bitmap := Memset(Zeros(), 0, 0xFF);
        BytesGiveBits(bitmap, i, 0xFF, 0xFF, 0xFF);
      case FromLevel =>
        bitmap := Memset(Zeros(), 0, 0);
        bitmap := bitmap[i := bitmap[i] | TailMask(r)];
        bitmap := Memset(bitmap, i + 1, 0xFF);
        BytesGiveBits(bitmap, i, 0, bitmap[i], 0xFF);
        SetsTailBits(r, bitmap[i]);
    }
  }

  /** A bitmap of plain bytes around one byte at index i. */
  lemma BytesGiveBits(bitmap: Bitmap, i: nat, before: bv8, at: bv8, after: bv8)
    requires i < BITMAP_BYTES && before in {0, 0xFF} && after in {0, 0xFF}
    requires forall j :: 0 <= j < BITMAP_BYTES ==> bitmap[j] == if j < i then before else if j == i then at else after
    ensures forall l :: 0 <= l < 256 ==>
        (Bit(bitmap, l) <==>
           if l / 8 < i then before == 0xFF else if l / 8 == i then ByteBit(at, l % 8) else after == 0xFF)
  {
    PlainBytes();
  }

  // ---------------------------------------------------------------- rules and matching

  /** A parsed rule; the action stands for its output function and target. */
  datatype Rule = Rule(category: string, compare: Compare, level: int, levelBitmap: Bitmap, action: nat)

  /** What zlog_rule_new leaves behind. */
  ghost predicate WellMade(r: Rule) {
    forall l :: 0 <= l < 256 ==> (Bit(r.levelBitmap, l) <==> Wants(r.compare, r.level, l))
  }

  ghost predicate AllWellMade(rules: seq<Rule>) {
    forall i :: 0 <= i < |rules| ==> WellMade(rules[i])
  }

  method NewRule(category: string, compare: Compare, level: int, action: nat) returns (r: Rule)
    requires category != "" && -1 <= level < 256
    ensures WellMade(r)
    ensures r.category == category != "" && r.compare == compare && r.level == level && r.action == action
  {
    var bitmap := BuildBitmap(compare, level);
    r := Rule(category, compare, level, bitmap, action);
  }

  /** strncmp(a, b, n) == 0 for texts without null characters. */
  predicate SamePrefix(a: string, b: string, n: nat) {
    if n == 0 then true
    else if a == "" || b == "" then a == b
    else a[0] == b[0] && SamePrefix(a[1..], b[1..], n - 1)
  }

  lemma {:induction false} SamePrefixMeans(a: string, b: string, n: nat)
    requires n <= |a|
    ensures SamePrefix(a, b, n) <==> a[..n] <= b
  {
    if n > 0 && b != "" {
      SamePrefixMeans(a[1..], b[1..], n - 1);
      assert a[..n] == [a[0]] + a[1..][..n - 1];
      assert b == [b[0]] + b[1..];
    }
  }

  predicate IsWastebin(r: Rule) {
    r.category == "!"
  }

  predicate Matches(r: Rule, category: string)
    requires r.category != ""
  {
    var len := |r.category|;
    if r.category == "*" then true
    else if r.category == category then true
    else if r.category[len - 1] == '_' then
      SamePrefix(r.category, category, if |category| == len - 1 then len - 1 else len)
    else false
  }

  /** aa_ matches aa_xx and aa, but not aa1_xx: an underscore at the end makes a prefix rule. */
  lemma MatchesMeans(r: Rule, category: string)
    requires r.category != ""
    ensures Matches(r, category) <==>
              || r.category == "*"
              || r.category == category
              || (r.category[|r.category| - 1] == '_' && (r.category <= category || r.category == category + "_"))
  {
    var len := |r.category|;
    SamePrefixMeans(r.category, category, len);
    SamePrefixMeans(r.category, category, len - 1);
    if r.category[len - 1] == '_' {
      assert r.category == r.category[..len - 1] + "_";
    }
  }

  // ---------------------------------------------------------------- the rules of a category

  predicate AllNamed(rules: seq<Rule>) {
    forall i :: 0 <= i < |rules| ==> rules[i].category != ""
  }

  function IfMatching(name: string, r: Rule): (fit: seq<Rule>)
    requires r.category != ""
  {
    if Matches(r, name) then [r] else []
  }

  function Matched(name: string, rules: seq<Rule>): (fit: seq<Rule>)
    requires AllNamed(rules)
  {
    if rules == [] then []
    else Matched(name, rules[..|rules| - 1]) + IfMatching(name, rules[|rules| - 1])
  }

  function LastWastebin(rules: seq<Rule>): (r: Option<Rule>)
    ensures r.Some? ==> r.value in rules && IsWastebin(r.value)
    ensures r.None? ==> forall i :: 0 <= i < |rules| ==> !IsWastebin(rules[i])
  {
    if rules == [] then None
    else if IsWastebin(rules[|rules| - 1]) then Some(rules[|rules| - 1])
    else LastWastebin(rules[..|rules| - 1])
  }

  /** The matching rules in file order; if there is none, the last wastebin rule, if any. */
  function FitRules(name: string, rules: seq<Rule>): (fit: seq<Rule>)
    requires AllNamed(rules)
  {
    if Matched(name, rules) != [] then Matched(name, rules)
    else if LastWastebin(rules).Some? then [LastWastebin(rules).value]
    else []
  }

  function OrBytes(a: seq<bv8>, b: seq<bv8>): (r: seq<bv8>)
    requires |a| == |b|
    ensures |r| == |a| && forall i :: 0 <= i < |a| ==> r[i] == a[i] | b[i]
  {
    if a == [] then [] else [a[0] | b[0]] + OrBytes(a[1..], b[1..])
  }

  function Overlapped(rules: seq<Rule>): (b: Bitmap) {
    if rules == [] then Zeros() else OrBytes(Overlapped(rules[..|rules| - 1]), rules[|rules| - 1].levelBitmap)
  }

  function IfWanted(r: Rule, level: nat): (actions: seq<nat>) {
    if Wants(r.compare, r.level, level) then [r.action] else []
  }

  /** What zlog_category_output does: the actions of the rules that want the level, in order. */
  function Actions(rules: seq<Rule>, level: nat): (actions: seq<nat>) {
    if rules == [] then [] else Actions(rules[..|rules| - 1], level) + IfWanted(rules[|rules| - 1], level)
  }

  lemma {:induction false} MatchedAreRules(name: string, rules: seq<Rule>)
    requires AllNamed(rules)
    ensures forall r :: r in Matched(name, rules) <==> r in rules && Matches(r, name)
  {
    if rules != [] {
      MatchedAreRules(name, rules[..|rules| - 1]);
      assert rules == rules[..|rules| - 1] + [rules[|rules| - 1]];
    }
  }

  lemma FitRulesWellMade(name: string, rules: seq<Rule>)
    requires AllNamed(rules) && AllWellMade(rules)
    ensures AllWellMade(FitRules(name, rules))
  {
    MatchedAreRules(name, rules);
    var fit := FitRules(name, rules);
    forall i | 0 <= i < |fit|
      ensures WellMade(fit[i])
    {
      assert fit[i] in rules;
    }
  }

  /** A bit of the overlapped bitmap is set exactly when the scan of the rules would output something. */
  lemma {:induction false} BitmapAgreesWithScan(rules: seq<Rule>, level: nat)
    requires AllWellMade(rules) && level < 256
    ensures Bit(Overlapped(rules), level) <==> Actions(rules, level) != []
  {
    if rules == [] {
      PlainBytes();
    } else {
      var front, last := rules[..|rules| - 1], rules[|rules| - 1];
      BitmapAgreesWithScan(front, level);
      OrBits(Overlapped(front)[level / 8], last.levelBitmap[level / 8], level % 8);
      assert WellMade(last);
    }
  }

  /** The fast test: for every category name and rule list, needless means that nothing would be logged. */
  lemma NeedlessIsExact(name: string, rules: seq<Rule>, level: nat)
    requires AllNamed(rules) && AllWellMade(rules) && level < 256
    ensures !Bit(Overlapped(FitRules(name, rules)), level) <==> Actions(FitRules(name, rules), level) == []
  {
    FitRulesWellMade(name, rules);
    BitmapAgreesWithScan(FitRules(name, rules), level);
  }

  // ---------------------------------------------------------------- the rules of a category, by their positions

  /** The positions that are true, in ascending order. */
  function Where(mask: seq<bool>): (positions: seq<nat>)
    ensures |positions| <= |mask| && forall k :: 0 <= k < |positions| ==> positions[k] < |mask|
  {
    if mask == [] then []
    else
      var n := |mask| - 1;
      Where(mask[..n]) + if mask[n] then [n] else []
  }

  lemma {:induction false} WhereMeans(mask: seq<bool>)
    ensures forall k, l :: 0 <= k < l < |Where(mask)| ==> Where(mask)[k] < Where(mask)[l]
    ensures forall i :: 0 <= i < |mask| ==> (i in Where(mask) <==> mask[i])
  {
    if mask != [] {
      var n := |mask| - 1;
      WhereMeans(mask[..n]);
      var front := Where(mask[..n]);
      assert n !in front;
      assert forall i :: 0 <= i < n ==> mask[..n][i] == mask[i];
    }
  }

  function MatchMask(name: string, rules: seq<Rule>): (mask: seq<bool>)
    requires AllNamed(rules)
    ensures |mask| == |rules| && forall i :: 0 <= i < |rules| ==> mask[i] == Matches(rules[i], name)
  {
    if rules == [] then []
    else MatchMask(name, rules[..|rules| - 1]) + [Matches(rules[|rules| - 1], name)]
  }

  function WantMask(rules: seq<Rule>, level: nat): (mask: seq<bool>)
    ensures |mask| == |rules|
    ensures forall i :: 0 <= i < |rules| ==> mask[i] == Wants(rules[i].compare, rules[i].level, level)
  {
    if rules == [] then []
    else
      var last := rules[|rules| - 1];
      WantMask(rules[..|rules| - 1], level) + [Wants(last.compare, last.level, level)]
  }

  /** One more rule: the positions of what is already there stay, and its own comes last if it is taken. */
  lemma PositionsGrow(front: seq<nat>, w: seq<nat>, n: nat, taken: bool, rules: seq<Rule>)
    requires w == front + (if taken then [n] else []) && n < |rules|
    requires forall k :: 0 <= k < |front| ==> front[k] < n
    ensures |w| == |front| + if taken then 1 else 0
    ensures forall k :: 0 <= k < |front| ==> w[k] == front[k] && rules[..n][front[k]] == rules[w[k]]
    ensures taken ==> w[|front|] == n
  {
  }

  lemma {:induction false} MatchedAt(name: string, rules: seq<Rule>)
    requires AllNamed(rules)
    ensures var w := Where(MatchMask(name, rules));
            |Matched(name, rules)| == |w| && forall k :: 0 <= k < |w| ==> Matched(name, rules)[k] == rules[w[k]]
  {
    if rules != [] {
      var n := |rules| - 1;
      MatchedAt(name, rules[..n]);
      var mask := MatchMask(name, rules);
      assert mask[..n] == MatchMask(name, rules[..n]);
      PositionsGrow(Where(mask[..n]), Where(mask), n, mask[n], rules);
    }
  }

  lemma {:induction false} ActionsAt(rules: seq<Rule>, level: nat)
    ensures var w := Where(WantMask(rules, level));
            && |Actions(rules, level)| == |w|
            && forall k :: 0 <= k < |w| ==> Actions(rules, level)[k] == rules[w[k]].action
  {
    if rules != [] {
      var n := |rules| - 1;
      ActionsAt(rules[..n], level);
      var mask := WantMask(rules, level);
      assert mask[..n] == WantMask(rules[..n], level);
      PositionsGrow(Where(mask[..n]), Where(mask), n, mask[n], rules);
    }
  }

  lemma {:induction false} LastWastebinPosition(rules: seq<Rule>) returns (i: nat)
    requires exists j :: 0 <= j < |rules| && rules[j].category == "!"
    ensures i < |rules| && rules[i].category == "!" && LastWastebin(rules) == Some(rules[i])
    ensures forall j :: i < j < |rules| ==> rules[j].category != "!"
  {
    var n := |rules| - 1;
    if rules[n].category == "!" {
      i := n;
    } else {
      var j :| 0 <= j < |rules| && rules[j].category == "!";
      assert rules[..n][j].category == "!";
      i := LastWastebinPosition(rules[..n]);
      assert forall j :: i < j < n ==> rules[..n][j] == rules[j];
    }
  }

  lemma SomeFits(name: string, rules: seq<Rule>, i: nat)
    requires AllNamed(rules) && i < |rules| && Matches(rules[i], name)
    ensures Matched(name, rules) != []
  {
    MatchedAt(name, rules);
    WhereMeans(MatchMask(name, rules));
    assert i in Where(MatchMask(name, rules));
  }

  lemma {:induction false} NoneFits(name: string, rules: seq<Rule>)
    requires AllNamed(rules) && forall i :: 0 <= i < |rules| ==> !Matches(rules[i], name)
    ensures Matched(name, rules) == []
  {
    if rules != [] {
      NoneFits(name, rules[..|rules| - 1]);
    }
  }

  /**
   The rules of a category, if some match: those at exactly the matching positions, in order.
   */
  lemma FitMatching(name: string, rules: seq<Rule>, i: nat) returns (positions: seq<nat>)
    requires AllNamed(rules) && i < |rules| && Matches(rules[i], name)
    ensures |positions| == |FitRules(name, rules)|
    ensures forall k :: 0 <= k < |positions| ==>
        positions[k] < |rules| && FitRules(name, rules)[k] == rules[positions[k]]
    ensures forall k, l :: 0 <= k < l < |positions| ==> positions[k] < positions[l]
    ensures forall j :: 0 <= j < |rules| ==> (j in positions <==> Matches(rules[j], name))
  {
    SomeFits(name, rules, i);
    MatchedAt(name, rules);
    WhereMeans(MatchMask(name, rules));
    positions := Where(MatchMask(name, rules));
  }

  /** Otherwise, if some are named "!": the one at the last such position. */
  lemma FitWastebin(name: string, rules: seq<Rule>) returns (last: nat)
    requires AllNamed(rules) && (forall i :: 0 <= i < |rules| ==> !Matches(rules[i], name))
    requires exists i :: 0 <= i < |rules| && rules[i].category == "!"
    ensures last < |rules| && FitRules(name, rules) == [rules[last]] && rules[last].category == "!"
    ensures forall i :: last < i < |rules| ==> rules[i].category != "!"
  {
    NoneFits(name, rules);
    last := LastWastebinPosition(rules);
  }

  /** Otherwise none. */
  lemma FitNothing(name: string, rules: seq<Rule>)
    requires AllNamed(rules) && (forall i :: 0 <= i < |rules| ==> !Matches(rules[i], name))
    requires forall i :: 0 <= i < |rules| ==> rules[i].category != "!"
    ensures FitRules(name, rules) == []
  {
    NoneFits(name, rules);
  }

  /** The actions of a list of rules are those of the rules that want the level, in order. */
  lemma ActionPositions(rules: seq<Rule>, level: nat) returns (positions: seq<nat>)
    ensures |positions| == |Actions(rules, level)|
    ensures forall k :: 0 <= k < |positions| ==>
        positions[k] < |rules| && Actions(rules, level)[k] == rules[positions[k]].action
    ensures forall k, l :: 0 <= k < l < |positions| ==> positions[k] < positions[l]
    ensures forall i :: 0 <= i < |rules| ==> (i in positions <==> Wants(rules[i].compare, rules[i].level, level))
  {
    positions := Where(WantMask(rules, level));
    WhereMeans(WantMask(rules, level));
    ActionsAt(rules, level);
  }

  /** So where some rule matches, a log call performs the actions at the positions that match and want the level. */
  lemma MatchingActions(name: string, rules: seq<Rule>, i: nat, level: nat) returns (positions: seq<nat>)
    requires AllNamed(rules) && i < |rules| && Matches(rules[i], name)
    ensures |positions| == |Actions(FitRules(name, rules), level)|
    ensures forall k :: 0 <= k < |positions| ==>
        positions[k] < |rules| && Actions(FitRules(name, rules), level)[k] == rules[positions[k]].action
    ensures forall k, l :: 0 <= k < l < |positions| ==> positions[k] < positions[l]
    ensures forall j :: 0 <= j < |rules| ==>
        (j in positions <==> Matches(rules[j], name) && Wants(rules[j].compare, rules[j].level, level))
  {
    var fit := FitMatching(name, rules, i);
    var wanted := ActionPositions(FitRules(name, rules), level);
    positions := Composed(fit, wanted);
    forall j | 0 <= j < |rules|
      ensures j in positions <==> Matches(rules[j], name) && Wants(rules[j].compare, rules[j].level, level)
    {
      ComposedHas(fit, wanted, j);
      if j in fit {
        var k :| 0 <= k < |fit| && fit[k] == j;
        assert k in wanted <==> Wants(rules[j].compare, rules[j].level, level);
      }
    }
  }

  function Composed(p: seq<nat>, q: seq<nat>): (r: seq<nat>)
    requires forall k :: 0 <= k < |q| ==> q[k] < |p|
    ensures |r| == |q| && forall k :: 0 <= k < |q| ==> r[k] == p[q[k]]
  {
    if q == [] then [] else Composed(p, q[..|q| - 1]) + [p[q[|q| - 1]]]
  }

  lemma ComposedHas(p: seq<nat>, q: seq<nat>, j: nat)
    requires forall k :: 0 <= k < |q| ==> q[k] < |p|
    requires forall k, l :: 0 <= k < l < |p| ==> p[k] < p[l]
    ensures j in Composed(p, q) <==> exists k :: 0 <= k < |p| && p[k] == j && k in q
  {
    var r := Composed(p, q);
    if j in r {
      var m :| 0 <= m < |r| && r[m] == j;
      assert p[q[m]] == j && q[m] in q;
    }
    if k :| 0 <= k < |p| && p[k] == j && k in q {
      var m :| 0 <= m < |q| && q[m] == k;
      assert r[m] == j;
    }
  }
}
