/** Categories: the rules that fit a name, their bitmap, and the update, commit and rollback of both. */
module Category {
  import opened Option
  import opened Text
  import opened Dispatch

  /** The fields of a category that a reload touches; a NULL list is None. */
  datatype CategoryState = CategoryState(fitRules: Option<seq<Rule>>, bitmap: Bitmap,
                                         fitRulesBackup: Option<seq<Rule>>, bitmapBackup: Bitmap)

  /** What zlog_category_new builds from a rule list. */
  function Built(name: string, rules: seq<Rule>): (st: CategoryState)
    requires AllNamed(rules)
  {
    CategoryState(Some(FitRules(name, rules)), Overlapped(FitRules(name, rules)), None, Zeros())
  }

  /** The rules and bitmap that the rule list asks for, and no backup left. */
  predicate UpToDate(st: CategoryState, name: string, rules: seq<Rule>)
    requires AllNamed(rules)
  {
    st.fitRules == Built(name, rules).fitRules && st.bitmap == Built(name, rules).bitmap && st.fitRulesBackup.None?
  }

  /** Between reloads there is a rule list and no backup. */
  predicate Settled(st: CategoryState) {
    st.fitRules.Some? && st.fitRulesBackup.None? && st.bitmapBackup == Zeros()
  }

  /** An update that ran, with the old values in the backups; a failed one leaves no rule list. */
  ghost predicate IsUpdate(before: CategoryState, after: CategoryState, target: CategoryState, ok: bool) {
    && after.fitRulesBackup == before.fitRules
    && after.bitmapBackup == before.bitmap
    && if ok then after.fitRules == target.fitRules && after.bitmap == target.bitmap else after.fitRules.None?
  }

  function Committed(st: CategoryState): (r: CategoryState) {
    if st.fitRulesBackup.None? then st else st.(fitRulesBackup := None, bitmapBackup := Zeros())
  }

  function RolledBack(st: CategoryState): (r: CategoryState) {
    if st.fitRulesBackup.None? then st
    else CategoryState(st.fitRulesBackup, st.bitmapBackup, None, Zeros())
  }

  /** A rollback undoes an update, failed or not, and leaves a category alone that was not updated. */
  lemma RollbackUndoesUpdate(before: CategoryState, after: CategoryState, target: CategoryState, ok: bool)
    requires Settled(before) && IsUpdate(before, after, target, ok)
    ensures RolledBack(after) == before && RolledBack(before) == before
  {
  }

  /** A commit after a successful update leaves what a new category would be built as, whatever was there before. */
  lemma CommitCompletesUpdate(before: CategoryState, after: CategoryState, name: string, rules: seq<Rule>)
    requires AllNamed(rules) && IsUpdate(before, after, Built(name, rules), true)
    ensures UpToDate(Committed(after), name, rules)
    ensures before.fitRules.Some? ==> Committed(after) == Built(name, rules)
  {
  }

  class Category {
    const name: string
    var levelBitmap: Bitmap
    var levelBitmapBackup: Bitmap
    var fitRules: Option<seq<Rule>>
    var fitRulesBackup: Option<seq<Rule>>

    ghost function State(): (st: CategoryState)
      reads this
    {
      CategoryState(fitRules, levelBitmap, fitRulesBackup, levelBitmapBackup)
    }

    constructor (name: string)
      ensures this.name == name && State() == CategoryState(None, Zeros(), None, Zeros())
    {
      this.name := name;
      levelBitmap, levelBitmapBackup := Zeros(), Zeros();
      fitRules, fitRulesBackup := None, None;
    }

    /** The byte loop of overlap_bitmap. */
    method OverlapBitmap(r: Rule)
      modifies this`levelBitmap
      ensures levelBitmap == OrBytes(old(levelBitmap), r.levelBitmap)
    {
      for i := 0 to BITMAP_BYTES
        invariant forall j :: 0 <= j < BITMAP_BYTES ==>
            levelBitmap[j] == if j < i then old(levelBitmap)[j] | r.levelBitmap[j] else old(levelBitmap)[j]
      {
        levelBitmap := levelBitmap[i := levelBitmap[i] | r.levelBitmap[i]];
      }
    }

    /** zc_arraylist_add of a rule, with the overlay of its bitmap. */
    method TakeRule(fit: seq<Rule>, r: Rule) returns (fit': seq<Rule>)
      requires levelBitmap == Overlapped(fit)
      modifies this`levelBitmap
      ensures fit' == fit + [r] && levelBitmap == Overlapped(fit')
    {
      fit' := fit + [r];
      OverlapBitmap(r);
      assert fit'[..|fit|] == fit;
    }

    /**
     Collects the rules of the category. The allocations, one for the list and one per added rule,
     succeed as long as the budget lasts; when one fails no list is left.
     */
    method ObtainRules(rules: seq<Rule>, budget: nat) returns (rc: int)
      requires AllNamed(rules)
      modifies this`levelBitmap, this`fitRules
      ensures rc == (if Suffices(name, rules, budget) then 0 else -1)
      ensures rc == 0 ==> fitRules == Built(name, rules).fitRules && levelBitmap == Built(name, rules).bitmap
      ensures rc != 0 ==> fitRules.None?
    {
      levelBitmap := Zeros();
      fitRules := None;
      if budget == 0 {
        return -1;
      }
      var ok, fit, wastebin := CollectRules(rules, budget);
      if !ok {
        return -1;
      }
      if |fit| == 0 && wastebin.Some? {
        if 1 >= budget {
          return -1;
        }
        fit := TakeRule(fit, wastebin.value);
      }
      fitRules := Some(fit);
      return 0;
    }

    /** The loop over all rules: the matching ones with their bitmap, and the last wastebin rule. */
    method CollectRules(rules: seq<Rule>, budget: nat) returns (ok: bool, fit: seq<Rule>, wastebin: Option<Rule>)
      requires AllNamed(rules) && 0 < budget && levelBitmap == Zeros()
      modifies this`levelBitmap
      ensures ok <==> |Matched(name, rules)| < budget
      ensures ok ==>
        fit == Matched(name, rules) && levelBitmap == Overlapped(fit) && wastebin == LastWastebin(rules)
    {
      fit, wastebin := [], None;
      for i := 0 to |rules|
        invariant |fit| < budget && fit == Matched(name, rules[..i]) && levelBitmap == Overlapped(fit)
        invariant wastebin == LastWastebin(rules[..i])
      {
        assert rules[..i + 1][..i] == rules[..i];
        if Matches(rules[i], name) {
          if |fit| + 1 >= budget {
            MatchedGrows(name, rules, i + 1);
            return false, fit, wastebin;
          }
          fit := TakeRule(fit, rules[i]);
        }
        if IsWastebin(rules[i]) {
          wastebin := Some(rules[i]);
        }
      }
      assert rules[..|rules|] == rules;
      ok := true;
    }

    /** After a successful collection the list is as the positions of the rules say. */
    lemma ObtainedRules(rules: seq<Rule>) returns (positions: seq<nat>)
      requires AllNamed(rules) && fitRules == Built(name, rules).fitRules
      ensures |positions| == |fitRules.value|
      ensures forall k :: 0 <= k < |positions| ==> positions[k] < |rules| && fitRules.value[k] == rules[positions[k]]
      ensures forall k, l :: 0 <= k < l < |positions| ==> positions[k] < positions[l]
      ensures forall i :: 0 <= i < |rules| && Matches(rules[i], name) ==>
          forall j :: 0 <= j < |rules| ==> (j in positions <==> Matches(rules[j], name))
      ensures (forall i :: 0 <= i < |rules| ==> !Matches(rules[i], name)) ==>
          if exists i :: 0 <= i < |rules| && rules[i].category == "!" then
            && |positions| == 1 && rules[positions[0]].category == "!"
            && forall i :: positions[0] < i < |rules| ==> rules[i].category != "!"
          else positions == []
    {
      if i :| 0 <= i < |rules| && Matches(rules[i], name) {
        positions := FitMatching(name, rules, i);
      } else if exists i :: 0 <= i < |rules| && rules[i].category == "!" {
        var last := FitWastebin(name, rules);
        positions := [last];
      } else {
        FitNothing(name, rules);
        positions := [];
      }
    }

    /** zlog_category_new; the caller drops the object when this fails. */
    method Fill(rules: seq<Rule>, budget: nat) returns (rc: int)
      requires AllNamed(rules) && State() == CategoryState(None, Zeros(), None, Zeros())
      modifies this
      ensures rc == (if Suffices(name, rules, budget) then 0 else -1)
      ensures rc == 0 ==> State() == Built(name, rules)
    {
      rc := ObtainRules(rules, budget);
    }

    method UpdateRules(rules: seq<Rule>, budget: nat) returns (rc: int)
      requires AllNamed(rules)
      modifies this
      ensures rc == (if Suffices(name, rules, budget) then 0 else -1)
      ensures IsUpdate(old(State()), State(), Built(name, rules), rc == 0)
    {
      fitRulesBackup := fitRules;
      fitRules := None;
      levelBitmapBackup := levelBitmap;
      rc := ObtainRules(rules, budget);
      if rc != 0 {
        fitRules := None;
        return -1;
      }
    }

    method CommitRules()
      modifies this
      ensures State() == Committed(old(State()))
    {
      if fitRulesBackup.None? {
        return;
      }
      fitRulesBackup := None;
      levelBitmapBackup := Zeros();
    }

    method RollbackRules()
      modifies this
      ensures State() == RolledBack(old(State()))
    {
      if fitRulesBackup.None? {
        return;
      }
      fitRules := fitRulesBackup;
      fitRulesBackup := None;
      levelBitmap := levelBitmapBackup;
      levelBitmapBackup := Zeros();
    }

    /** The shortcut of zlog() and the scan behind it; together they log what the scan alone would. */
    method Log(level: nat, ghost rules: seq<Rule>) returns (actions: seq<nat>)
      requires level < 256 && AllNamed(rules) && AllWellMade(rules) && UpToDate(State(), name, rules)
      ensures actions == Actions(FitRules(name, rules), level)
    {
      NeedlessIsExact(name, rules, level);
      if !Bit(levelBitmap, level) {
        return [];
      }
      actions := [];
      var fit := fitRules.value;
      for i := 0 to |fit|
        invariant actions == Actions(fit[..i], level)
      {
        assert fit[..i + 1][..i] == fit[..i];
        if Wants(fit[i].compare, fit[i].level, level) {
          actions := actions + [fit[i].action];
        }
      }
      assert fit[..|fit|] == fit;
    }
  }

  lemma {:induction false} MatchedGrows(name: string, rules: seq<Rule>, i: nat)
    requires AllNamed(rules) && i <= |rules|
    ensures |Matched(name, rules[..i])| <= |Matched(name, rules)|
    decreases |rules| - i
  {
    if i == |rules| {
      assert rules[..i] == rules;
    } else {
      assert rules[..i + 1][..i] == rules[..i];
      MatchedGrows(name, rules, i + 1);
    }
  }

  /** One allocation for the list and one for every rule of the category. */
  predicate Suffices(name: string, rules: seq<Rule>, budget: nat)
    requires AllNamed(rules)
  {
    |FitRules(name, rules)| < budget
  }

  /** A list needs one more allocation than it has rules. */
  lemma SufficesMeans(name: string, rules: seq<Rule>, budget: nat)
    requires AllNamed(rules)
    ensures Suffices(name, rules, budget) <==> 1 + |Built(name, rules).fitRules.value| <= budget
  {
  }

  /** How many allocations succeed for each category; a category that is not listed gets none. */
  type Budgets = map<string, nat>

  function Of(budgets: Budgets, name: string): (budget: nat) {
    if name in budgets then budgets[name] else 0
  }

  /** An update that fails exactly when the budget does not suffice. */
  ghost predicate UpdatedFrom(before: CategoryState, after: CategoryState, name: string, rules: seq<Rule>, budget: nat)
    requires AllNamed(rules)
  {
    IsUpdate(before, after, Built(name, rules), Suffices(name, rules, budget))
  }

  /** Of the updated categories none failed, or the given one did. */
  ghost predicate Stopped(updated: set<string>, rules: seq<Rule>, budget: Budgets, failed: Option<string>)
    requires AllNamed(rules)
  {
    if failed.None? then forall k :: k in updated ==> Suffices(k, rules, Of(budget, k))
    else failed.value in updated && !Suffices(failed.value, rules, Of(budget, failed.value))
  }

  // ---------------------------------------------------------------- the table

  /** The category table; a foreach visits the categories in an order of the hash table's choosing. */
  class CategoryTable {
    var categories: map<string, Category>

    ghost predicate Valid()
      reads this
    {
      forall k :: k in categories ==> categories[k].name == k
    }

    ghost predicate AllSettled()
      reads this, categories.Values
    {
      forall k :: k in categories ==> Settled(categories[k].State())
    }

    /** Every category is what zlog_category_new would build from the rules. */
    ghost predicate BuiltFrom(rules: seq<Rule>)
      requires AllNamed(rules)
      reads this, categories.Values
    {
      forall k :: k in categories ==> categories[k].State() == Built(k, rules)
    }

    /** Every category has the rules and bitmap that the rule list asks for, and no backup. */
    ghost predicate AllUpToDate(rules: seq<Rule>)
      requires AllNamed(rules)
      reads this, categories.Values
    {
      forall k :: k in categories ==> UpToDate(categories[k].State(), k, rules)
    }

    /** The states of all categories by name. */
    ghost function States(): (states: map<string, CategoryState>)
      reads this, categories.Values
    {
      map k | k in categories :: categories[k].State()
    }

    /** Whether the allocations of every category's update succeed. */
    ghost predicate Enough(rules: seq<Rule>, budget: Budgets)
      requires AllNamed(rules)
      reads this
    {
      forall k :: k in categories ==> Suffices(k, rules, Of(budget, k))
    }

    constructor ()
      ensures Valid() && categories == map[]
    {
      categories := map[];
    }

    /** In the middle of an update: the categories still to be done are as before, the others are updated. */
    static ghost predicate Partly(categories: map<string, Category>, before: map<string, CategoryState>,
                                  todo: set<string>, rules: seq<Rule>, budget: Budgets)
      requires AllNamed(rules)
      reads categories.Values
    {
      && before.Keys == categories.Keys
      && (forall k :: k in categories && k in todo ==> categories[k].State() == before[k])
      && (forall k :: k in categories && k !in todo ==>
            UpdatedFrom(before[k], categories[k].State(), k, rules, Of(budget, k)))
    }

    static method UpdateOne(categories: map<string, Category>, name: string, rules: seq<Rule>, budget: Budgets,
                            ghost before: map<string, CategoryState>, ghost todo: set<string>)
      returns (rc: int)
      requires AllNamed(rules) && name in categories && forall k :: k in categories ==> categories[k].name == k
      requires name in todo && Partly(categories, before, todo, rules, budget)
      modifies categories[name]
      ensures rc == if Suffices(name, rules, Of(budget, name)) then 0 else -1
      ensures Partly(categories, before, todo - {name}, rules, budget)
    {
      rc := categories[name].UpdateRules(rules, Of(budget, name));
    }

    /** Stops at the first category whose update fails; the others stay as they are. */
    method UpdateRules(rules: seq<Rule>, budget: Budgets)
      returns (rc: int, ghost updated: set<string>, ghost failed: Option<string>)
      requires Valid() && AllNamed(rules)
      modifies categories.Values
      ensures updated <= categories.Keys
      ensures Partly(categories, old(States()), categories.Keys - updated, rules, budget)
      ensures rc == if Enough(rules, budget) then 0 else -1
      ensures rc == if failed.None? then 0 else -1
      ensures rc == 0 ==> updated == categories.Keys
      ensures Stopped(updated, rules, budget, failed)
    {
      var categories := categories;
      var todo := categories.Keys;
      ghost var before := States();
      rc, failed := 0, None;
      while todo != {} && rc == 0
        invariant todo <= categories.Keys && Partly(categories, before, todo, rules, budget)
        invariant Stopped(categories.Keys - todo, rules, budget, failed) && rc == if failed.None? then 0 else -1
        decreases todo
      {
        var name :| name in todo;
        rc := UpdateOne(categories, name, rules, budget, before, todo);
        todo := todo - {name};
        if rc != 0 {
          failed := Some(name);
        }
      }
      updated := categories.Keys - todo;
    }

    method CommitRules()
      requires Valid()
      modifies categories.Values
      ensures forall k :: k in categories ==> categories[k].State() == Committed(old(categories[k].State()))
    {
      var categories := categories;
      var todo := categories.Keys;
      while todo != {}
        invariant todo <= categories.Keys
        invariant forall k :: k in categories ==>
            var before := old(categories[k].State());
            categories[k].State() == if k in todo then before else Committed(before)
        decreases todo
      {
        var name :| name in todo;
        categories[name].CommitRules();
        todo := todo - {name};
      }
    }

    method RollbackRules()
      requires Valid()
      modifies categories.Values
      ensures forall k :: k in categories ==> categories[k].State() == RolledBack(old(categories[k].State()))
    {
      var categories := categories;
      var todo := categories.Keys;
      while todo != {}
        invariant todo <= categories.Keys
        invariant forall k :: k in categories ==>
            var before := old(categories[k].State());
            categories[k].State() == if k in todo then before else RolledBack(before)
        decreases todo
      {
        var name :| name in todo;
        categories[name].RollbackRules();
        todo := todo - {name};
      }
    }

    /** The intended transaction: commit when every update succeeded, otherwise restore everything. */
    method UpdateOrRestore(rules: seq<Rule>, budget: Budgets) returns (rc: int)
      requires Valid() && AllSettled() && AllNamed(rules)
      modifies categories.Values
      ensures rc == if Enough(rules, budget) then 0 else -1
      ensures rc == 0 ==> BuiltFrom(rules)
      ensures rc != 0 ==> forall k :: k in categories ==> categories[k].State() == old(categories[k].State())
    {
      ghost var updated, failed;
      rc, updated, failed := UpdateRules(rules, budget);
      forall k | k in updated
        ensures RolledBack(categories[k].State()) == old(categories[k].State())
        ensures Suffices(k, rules, Of(budget, k)) ==> Committed(categories[k].State()) == Built(k, rules)
      {
        var before, after := old(categories[k].State()), categories[k].State();
        var ok := Suffices(k, rules, Of(budget, k));
        RollbackUndoesUpdate(before, after, Built(k, rules), ok);
        if ok { CommitCompletesUpdate(before, after, k, rules); }
      }
      if rc == 0 {
        CommitRules();
      } else {
        RollbackRules();
      }
    }

    /**
     The use that zlog_reload makes of the table: commit after a successful update. After a failed one the
     rollback is not reached, and the category that failed is without rules.
     */
    method UpdateAndCommit(rules: seq<Rule>, budget: Budgets) returns (rc: int, ghost failed: Option<string>)
      requires Valid() && AllNamed(rules)
      modifies categories.Values
      ensures rc == if Enough(rules, budget) then 0 else -1
      ensures rc == 0 ==> AllUpToDate(rules)
      ensures rc != 0 ==> failed.Some? && failed.value in categories && categories[failed.value].fitRules.None?
    {
      ghost var updated;
      rc, updated, failed := UpdateRules(rules, budget);
      if rc == 0 {
        forall k | k in categories
          ensures UpToDate(Committed(categories[k].State()), k, rules)
        {
          CommitCompletesUpdate(old(categories[k].State()), categories[k].State(), k, rules);
        }
        CommitRules();
      }
    }

    method FetchCategory(name: string, rules: seq<Rule>, budget: nat) returns (c: Category?)
      requires Valid() && AllNamed(rules)
      modifies this
      ensures Valid()
      ensures c != null ==> categories == old(categories)[name := c]
      ensures c == null ==> categories == old(categories)
      ensures name in old(categories) ==> c == old(categories)[name]
      ensures name !in old(categories) ==>
          (c == null <==> MAXLEN_PATH < |name| || !Suffices(name, rules, budget))
      ensures c != null && name !in old(categories) ==> fresh(c) && c.State() == Built(name, rules)
    {
      if name in categories {
        return categories[name];
      }
      if |name| > MAXLEN_PATH {
        return null;
      }
      var made := new Category(name);
      var rc := made.Fill(rules, budget);
      if rc != 0 {
        return null;
      }
      categories := categories[name := made];
      return made;
    }
  }
}
