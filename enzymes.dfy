/**
 * The enzyme settings of the node: the table from the enzyme names offered
 * in the dialog to the one-letter codes xinteract and pepXML use, and the
 * `<sample_enzyme>` block the node writes into a pepXML file that lacks one.
 */
module Enzymes {
  import opened Wrappers
  import opened Text
  import opened Lines

  /** `enzymeNameToShort`, filled once in the static initialiser. */
  const EnzymeNameToShort: map<string, string> := map[
    "Trypsin" := "T",
    "StrictTrypsin" := "S",
    "Chymotrypsin" := "C",
    "RalphTrypsin" := "R",
    "AspN" := "A",
    "GluC" := "G",
    "GluC Bicarb" := "B",
    "CNBr" := "M",
    "Trypsin/CNBr" := "D",
    "Chymotrypsin/AspN/Trypsin" := "3",
    "Elastase" := "E",
    "LysC / Trypsin_K (cuts after K not before P)]" := "K",
    "LysN (cuts before K)]" := "L",
    "LysN Promisc (cuts before KASR)]" := "P",
    "Nonspecific or None" := "N"
  ]

  /** `enzymeNameToShort.get(name)`: null for a name not in the table. */
  function EnzymeShort(name: string): Option<string> {
    if name in EnzymeNameToShort then Some(EnzymeNameToShort[name]) else None
  }

  /**
   * Every name in the table has a one-character code, and no two names
   * share a code, so the code given to xinteract names one enzyme.
   */
  lemma EnzymeTable()
    ensures forall name | EnzymeShort(name).Some? :: |EnzymeShort(name).value| == 1
    ensures forall a, b | EnzymeShort(a).Some? && EnzymeShort(a) == EnzymeShort(b) :: a == b
    ensures EnzymeShort("Trypsin") == Some("T")
  {
  }

  /** The four attributes of the block; `createEnzymeTag` fills them for "T" only. */
  datatype Specificity = Specificity(name: Option<string>, cut: Option<string>,
                                     noCut: Option<string>, sense: Option<string>)

  function SpecificityOf(enzyme: Option<string>): Specificity {
    if enzyme == Some("T") then Specificity(Some("trypsin"), Some("KR"), Some("P"), Some("C"))
    else Specificity(None, None, None, None)
  }

  /** `createEnzymeTag(enzyme)`: the block as one string with two inner line breaks. */
  function EnzymeTag(enzyme: Option<string>): string {
    var s := SpecificityOf(enzyme);
    TagText(JavaStr(s.name), JavaStr(s.cut), JavaStr(s.noCut), JavaStr(s.sense))
  }

  /**
   * The string `createEnzymeTag` concatenates around its four attribute
   * values: the same characters as the source's literal pieces, grouped at
   * the two line breaks.
   */
  function TagText(name: string, cut: string, noCut: string, sense: string): string {
    ("\t<sample_enzyme name=\"" + name + "\">") + "\n" +
    ("\t\t<specificity cut=\"" + cut + "\" no_cut=\"" + noCut + "\" sense=\"" + sense + "\"/>") + "\n" +
    "\t</sample_enzyme>"
  }

  /** The three lines a reader of the written file sees for the block. */
  function TagLines(name: string, cut: string, noCut: string, sense: string): seq<string> {
    ["\t<sample_enzyme name=\"" + name + "\">",
     "\t\t<specificity cut=\"" + cut + "\" no_cut=\"" + noCut + "\" sense=\"" + sense + "\"/>",
     "\t</sample_enzyme>"]
  }

  /** The block, read back line by line, is the fixed three-line layout. */
  lemma TagTextLayout(name: string, cut: string, noCut: string, sense: string)
    requires NoBreak(name) && NoBreak(cut) && NoBreak(noCut) && NoBreak(sense)
    ensures ReadLines(TagText(name, cut, noCut, sense)) == TagLines(name, cut, noCut, sense)
  {
    var ls := TagLines(name, cut, noCut, sense);
    assert NoBreak(ls[0]) && NoBreak(ls[1]) && NoBreak(ls[2]);
    ReadThree(ls[0], ls[1], ls[2]);
  }

  lemma EnzymeTagLayout(enzyme: Option<string>)
    ensures var s := SpecificityOf(enzyme);
      ReadLines(EnzymeTag(enzyme)) ==
        TagLines(JavaStr(s.name), JavaStr(s.cut), JavaStr(s.noCut), JavaStr(s.sense))
  {
    var s := SpecificityOf(enzyme);
    assert NoBreak(JavaStr(s.name)) && NoBreak(JavaStr(s.cut));
    assert NoBreak(JavaStr(s.noCut)) && NoBreak(JavaStr(s.sense));
    TagTextLayout(JavaStr(s.name), JavaStr(s.cut), JavaStr(s.noCut), JavaStr(s.sense));
  }

  /** For Trypsin the block declares name="trypsin", cut="KR", no_cut="P", sense="C". */
  lemma TrypsinTag()
    ensures ReadLines(EnzymeTag(Some("T"))) == TagLines("trypsin", "KR", "P", "C")
  {
    EnzymeTagLayout(Some("T"));
  }

  /** Every other code, and a failed lookup, yields the text "null" in each attribute. */
  lemma OtherCodesTag(enzyme: Option<string>)
    requires enzyme != Some("T")
    ensures ReadLines(EnzymeTag(enzyme)) == TagLines("null", "null", "null", "null")
  {
    EnzymeTagLayout(enzyme);
  }

  /** Of the fifteen names in the table, only "Trypsin" gets a filled-in block. */
  lemma OnlyTrypsinIsDescribed(name: string)
    requires name in EnzymeNameToShort
    ensures SpecificityOf(EnzymeShort(name)).name.Some? <==> name == "Trypsin"
  {
  }

  /** The first line of the block carries the `<sample_enzyme` marker. */
  lemma TagLinesDeclareEnzyme(name: string, cut: string, noCut: string, sense: string)
    ensures Contains(TagLines(name, cut, noCut, sense)[0], "<sample_enzyme")
  {
    var first := TagLines(name, cut, noCut, sense)[0];
    var pre := "\t<sample_enzyme name=\"";
    assert first == pre + (name + "\">");
    assert pre[1..15] == "<sample_enzyme";
    assert first[1..15] == pre[1..15];
    ContainsAt(first, 1, "<sample_enzyme");
  }

  /** The three lines of the block for an enzyme code. */
  function EnzymeTagLines(enzyme: Option<string>): (ls: seq<string>)
    ensures |ls| == 3
  {
    var s := SpecificityOf(enzyme);
    TagLines(JavaStr(s.name), JavaStr(s.cut), JavaStr(s.noCut), JavaStr(s.sense))
  }

  /**
   * `bw.append(createEnzymeTag(e)); bw.append("\n")` writes exactly the
   * block's three lines, each with its terminator.
   */
  lemma EnzymeTagRendered(enzyme: Option<string>)
    ensures Render(EnzymeTagLines(enzyme)) == EnzymeTag(enzyme) + "\n"
    ensures AllNoBreak(EnzymeTagLines(enzyme))
    ensures Contains(EnzymeTagLines(enzyme)[0], "<sample_enzyme")
  {
    var s := SpecificityOf(enzyme);
    SpecificityNoBreak(enzyme);
    TagLinesRendered(JavaStr(s.name), JavaStr(s.cut), JavaStr(s.noCut), JavaStr(s.sense));
    TagLinesDeclareEnzyme(JavaStr(s.name), JavaStr(s.cut), JavaStr(s.noCut), JavaStr(s.sense));
  }

  lemma SpecificityNoBreak(enzyme: Option<string>)
    ensures var s := SpecificityOf(enzyme);
      NoBreak(JavaStr(s.name)) && NoBreak(JavaStr(s.cut)) && NoBreak(JavaStr(s.noCut)) && NoBreak(JavaStr(s.sense))
  {
  }

  /** The block's lines hold no break when its attribute values hold none. */
  lemma TagLinesNoBreak(name: string, cut: string, noCut: string, sense: string)
    requires NoBreak(name) && NoBreak(cut) && NoBreak(noCut) && NoBreak(sense)
    ensures AllNoBreak(TagLines(name, cut, noCut, sense))
  {
    var open, q := "\t<sample_enzyme name=\"", "\">";
    assert NoBreak(open) && NoBreak(q);
    NoBreakAppend(open, name);
    NoBreakAppend(open + name, q);
    var s0, s1, s2, s3 := "\t\t<specificity cut=\"", "\" no_cut=\"", "\" sense=\"", "\"/>";
    assert NoBreak(s0) && NoBreak(s1) && NoBreak(s2) && NoBreak(s3);
    NoBreakAppend(s0, cut);
    NoBreakAppend(s0 + cut, s1);
    NoBreakAppend(s0 + cut + s1, noCut);
    NoBreakAppend(s0 + cut + s1 + noCut, s2);
    NoBreakAppend(s0 + cut + s1 + noCut + s2, sense);
    NoBreakAppend(s0 + cut + s1 + noCut + s2 + sense, s3);
    assert NoBreak("\t</sample_enzyme>");
  }

  /** Written line by line, the block's lines give back the block's text and a terminator. */
  lemma TagLinesRendered(name: string, cut: string, noCut: string, sense: string)
    requires NoBreak(name) && NoBreak(cut) && NoBreak(noCut) && NoBreak(sense)
    ensures Render(TagLines(name, cut, noCut, sense)) == TagText(name, cut, noCut, sense) + "\n"
    ensures AllNoBreak(TagLines(name, cut, noCut, sense))
  {
    TagLinesNoBreak(name, cut, noCut, sense);
    var ls := TagLines(name, cut, noCut, sense);
    var a, b, c := ls[0], ls[1], ls[2];
    assert Render([b, c]) == b + "\n" + (c + "\n") by {
      RenderCons(b, [c]);
      RenderOne(c);
    }
    assert Render(ls) == a + "\n" + (b + "\n" + (c + "\n")) by {
      assert ls == [a] + [b, c];
      RenderCons(a, [b, c]);
    }
  }
}
