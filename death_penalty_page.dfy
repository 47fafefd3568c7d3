/**
 * The `verdict` object of www/death_penalty.js: every delivery of the
 * death-penalty sheet redraws `#charges` from scratch with one grouping
 * pass, then forgets the buffered records, so each pass is independent of
 * the ones before it.
 */
module DeathPenaltyPage {
  import opened Markup
  import opened Grouping

  class Verdict {
    /** The tables and the `slugify` the object carries. */
    const rules: Rules
    /** `death_penalty`: the records of the last delivered sheet. */
    var deathPenalty: seq<Record>
    /** `sheets_loaded`, which this page only ever resets. */
    var sheetsLoaded: nat
    /** `items`: the records buffered per `name_full` during a pass. */
    var items: Items
    /** The fragments of `#charges`, in order. */
    var output: seq<string>

    /** Between passes nothing is buffered and the counter is zero. */
    ghost predicate Valid()
      reads this
    {
      rules == DeathPenaltyRules && items == map[] && sheetsLoaded == 0
    }

    constructor()
      ensures Valid()
      ensures deathPenalty == [] && output == []
    {
      rules := DeathPenaltyRules;
      deathPenalty := [];
      sheetsLoaded := 0;
      items := map[];
      output := [];
    }

    /**
     * The function `init()` hands to `$.each`, on one record: buffer it
     * under its name and, if the name was seen before, clean up the stored
     * pair in place, choose the two colons and append the block.
     */
    method Visit(value: Record)
      requires WellFormed(items)
      requires forall c :: rules.colon(c) == SentenceColon(c)
      modifies this`items, this`output
      ensures WellFormed(items)
      ensures items == Step(rules, old(items), value).items
      ensures output == old(output) + Step(rules, old(items), value).blocks
    {
      ghost var before := items;
      var key := value.nameFull;
      var writeIt := true;
      if key !in items {
        items := items[key := []];
        writeIt := false;
      }
      items := items[key := items[key] + [value]];
      if writeIt {
        var list := items[key];
        // The stored pair is cleaned up in place: charges and verdicts
        // through the tables, then the computed slugs.
        var first, second := list[0], list[1];
        first := first.(charge := rules.chargeLookup(first.charge));
        second := second.(charge := rules.chargeLookup(second.charge));
        first := first.(verdict := rules.verdictLookup(first.verdict));
        second := second.(verdict := rules.verdictLookup(second.verdict));
        first := first.(slug := rules.slugify(first.nameFull));
        first := first.(verdictSlug := rules.slugify(first.verdict));
        second := second.(verdictSlug := rules.slugify(second.verdict));
        list := list[0 := first][1 := second];
        items := items[key := list];
        var colon := [":", ":"];
        if first.charge == Enhancer {
          colon := colon[0 := ""];
        }
        if second.charge == Enhancer {
          colon := colon[1 := ""];
        }
        var chargesMarkup := rules.chargeMarkup(first, colon[0]) + rules.chargeMarkup(second, colon[1]);
        var markup := rules.itemMarkup(first, chargesMarkup);
        output := output + [markup];
        assert list == CleanUpPair(rules, before[key] + [value]);
      } else {
        assert items[key] == [value];
      }
    }

    /**
     * The `$.each` of `init()`: hand every delivered record, in order, to
     * the function above.
     */
    method Walk()
      requires WellFormed(items)
      requires forall c :: rules.colon(c) == SentenceColon(c)
      modifies this`items, this`output
      ensures items == Pass(rules, old(items), deathPenalty).items
      ensures output == old(output) + Pass(rules, old(items), deathPenalty).blocks
    {
      ghost var items0 := items;
      ghost var output0 := output;
      var recs := deathPenalty;
      var i := 0;
      while i < |recs|
        invariant 0 <= i <= |recs|
        invariant var p := PassUpTo(rules, items0, recs, i); items == p.items && output == output0 + p.blocks
      {
        Visit(recs[i]);
        i := i + 1;
      }
      PassUpToIsPass(rules, items0, recs, i);
      assert recs[..i] == recs;
    }

    /**
     * `init()`: clear `#charges`, run one pass over the delivered records,
     * then empty `items` and zero `sheets_loaded`.
     */
    method Init()
      requires WellFormed(items)
      requires forall c :: rules.colon(c) == SentenceColon(c)
      modifies this`items, this`output, this`sheetsLoaded
      ensures output == Pass(rules, old(items), deathPenalty).blocks
      ensures items == map[] && sheetsLoaded == 0
    {
      output := [];
      Walk();
      items := map[];
      sheetsLoaded := 0;
    }

    /**
     * `death_penalty_callback(items)`: store the delivered sheet and redraw,
     * on every delivery; what is shown depends on the delivered records
     * alone, so delivering the same sheet again shows the same blocks.
     */
    method Callback(delivered: seq<Record>)
      requires Valid()
      modifies this
      ensures Valid()
      ensures deathPenalty == delivered
      ensures output == Pass(DeathPenaltyRules, map[], delivered).blocks
    {
      deathPenalty := delivered;
      Init();
    }
  }
}
