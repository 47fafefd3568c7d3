/**
 * The `verdict` object of www/verdict.js: it counts the sheets the feed has
 * delivered and, when the second one arrives, runs the grouping pass once
 * over the chosen sheet, appending one block to `#charges` per record whose
 * name it has seen before.
 */
module VerdictPage {
  import opened Markup
  import opened Grouping

  class Verdict {
    /** The tables and the `slugify` the object carries. */
    const rules: Rules
    /** The records of the sheet the configuration chose (`this[this.sheet]`). */
    var selected: seq<Record>
    /** `sheets_loaded`: how many sheets have reported in. */
    var sheetsLoaded: nat
    /** `items`: the records buffered per `name_full`. */
    var items: Items
    /** The fragments appended to `#charges`, in order. */
    var output: seq<string>
    /** How many passes have run. */
    ghost var passes: nat

    /**
     * The counter gates the pass: it has run once exactly when two or more
     * sheets have reported, and before that nothing is buffered or shown.
     */
    ghost predicate Valid()
      reads this
    {
      && rules == VerdictRules
      && WellFormed(items)
      && passes == (if sheetsLoaded >= 2 then 1 else 0)
      && (sheetsLoaded < 2 ==> items == map[] && output == [])
    }

    constructor(selected: seq<Record>)
      ensures Valid()
      ensures this.selected == selected && sheetsLoaded == 0 && items == map[] && output == []
    {
      rules := VerdictRules;
      this.selected := selected;
      sheetsLoaded := 0;
      items := map[];
      output := [];
      passes := 0;
    }

    /**
     * The function `init()` hands to `$.each`, on one record: buffer it
     * under its name and, if the name was seen before, clean up the stored
     * pair in place and append its block.
     */
    method Visit(value: Record)
      requires WellFormed(items)
      requires forall c :: rules.colon(c) == ":"
      modifies this`items, this`output
      ensures WellFormed(items)
      ensures items == Step(rules, old(items), value).items
      ensures output == old(output) + Step(rules, old(items), value).blocks
    {
      ghost var before := items;
      var key := value.nameFull;
      var writeIt := true;
      if key !in items {
        items := items[key := []];
        writeIt := false;
      }
      items := items[key := items[key] + [value]];
      if writeIt {
        var list := items[key];
        // The stored pair is cleaned up in place: charges and verdicts
        // through the tables, then the computed slugs.
        var first, second := list[0], list[1];
        first := first.(charge := rules.chargeLookup(first.charge));
        second := second.(charge := rules.chargeLookup(second.charge));
        first := first.(verdict := rules.verdictLookup(first.verdict));
        second := second.(verdict := rules.verdictLookup(second.verdict));
        first := first.(slug := rules.slugify(first.nameFull));
        first := first.(verdictSlug := rules.slugify(first.verdict));
        second := second.(verdictSlug := rules.slugify(second.verdict));
        list := list[0 := first][1 := second];
        items := items[key := list];
        var chargesMarkup := rules.chargeMarkup(first, ":") + rules.chargeMarkup(second, ":");
        var markup := rules.itemMarkup(first, chargesMarkup);
        output := output + [markup];
        assert list == CleanUpPair(rules, before[key] + [value]);
      } else {
        assert items[key] == [value];
      }
    }

    /**
     * `init()`: one pass over the selected records, appending one block for
     * every record after the first of its name.
     */
    method Init()
      requires WellFormed(items)
      requires forall c :: rules.colon(c) == ":"
      modifies this`items, this`output, this`passes
      ensures WellFormed(items)
      ensures items == Pass(rules, old(items), selected).items
      ensures output == old(output) + Pass(rules, old(items), selected).blocks
      ensures passes == old(passes) + 1
    {
      ghost var items0 := items;
      ghost var output0 := output;
      var recs := selected;
      var i := 0;
      while i < |recs|
        invariant 0 <= i <= |recs|
        invariant var p := PassUpTo(rules, items0, recs, i); items == p.items && output == output0 + p.blocks
        invariant passes == old(passes)
      {
        Visit(recs[i]);
        i := i + 1;
      }
      PassUpToIsPass(rules, items0, recs, i);
      assert recs[..i] == recs;
      passes := passes + 1;
    }

    /**
     * `tally()`: one more sheet has reported; the call that brings the count
     * to two runs the pass, and no other call does, so it runs at most once.
     */
    method Tally()
      requires Valid()
      modifies this
      ensures Valid()
      ensures sheetsLoaded == old(sheetsLoaded) + 1 && selected == old(selected)
      ensures sheetsLoaded == 2 ==> items == Pass(VerdictRules, map[], selected).items
      ensures sheetsLoaded == 2 ==> output == Pass(VerdictRules, map[], selected).blocks
      ensures sheetsLoaded != 2 ==> items == old(items) && output == old(output)
      ensures passes <= 1
    {
      sheetsLoaded := sheetsLoaded + 1;
      if sheetsLoaded == 2 {
        Init();
      }
    }
  }
}
