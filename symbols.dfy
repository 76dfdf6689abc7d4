/** Symbol handling of the trade transformer: Python's substring test and
    `str.replace`, the first-match-wins remap table and the space-to-hyphen rule. */
module Symbols {
  import opened Types
  import opened Strings

  /** The remap table of the transformer, in its fixed priority order. */
  const SymbolMapping: seq<(string, string)> := [
    (".USD-PAXOS", "USD"),
    ("VUAA", ".L"),
    ("ENGI", "ENGI.PA"),
    ("ARRDd", "MT.AS"),
    ("AKZA", "AKZA.AS"),
    ("ALFEN", "ALFEN.AS")
  ]

  /** The least index at or after `from` whose key occurs in `sym`. */
  function FirstMatchFrom(sym: string, table: seq<(string, string)>, from: nat): (r: Option<nat>)
    requires from <= |table|
    ensures r.Some? ==> from <= r.value < |table| && Contains(sym, table[r.value].0)
    ensures r.Some? ==> forall j :: from <= j < r.value ==> !Contains(sym, table[j].0)
    ensures r.None? ==> forall j :: from <= j < |table| ==> !Contains(sym, table[j].0)
    decreases |table| - from
  {
    if from == |table| then None
    else if Contains(sym, table[from].0) then Some(from)
    else FirstMatchFrom(sym, table, from + 1)
  }

  /** The symbol after the remap step: the first key of the table that occurs in the
      symbol has all its occurrences removed and the rule's value appended; a symbol
      containing no key is left as it is. */
  function Remapped(sym: string): (r: string)
    ensures (forall j :: 0 <= j < |SymbolMapping| ==> !Contains(sym, SymbolMapping[j].0)) ==> r == sym
    ensures forall i :: 0 <= i < |SymbolMapping| && Contains(sym, SymbolMapping[i].0)
                        && (forall j :: 0 <= j < i ==> !Contains(sym, SymbolMapping[j].0))
                        ==> r == ReplaceAll(sym, SymbolMapping[i].0, "") + SymbolMapping[i].1
  {
    match FirstMatchFrom(sym, SymbolMapping, 0)
    case None => sym
    case Some(i) => ReplaceAll(sym, SymbolMapping[i].0, "") + SymbolMapping[i].1
  }

  /** The remap loop with its `break`. */
  method RemapSymbol(sym: string) returns (r: string)
    ensures r == Remapped(sym)
  {
    r := sym;
    for i := 0 to |SymbolMapping|
      invariant r == sym
      invariant FirstMatchFrom(sym, SymbolMapping, 0) == FirstMatchFrom(sym, SymbolMapping, i)
    {
      var (key, value) := SymbolMapping[i];
      if Contains(sym, key) {
        r := ReplaceAll(sym, key, "") + value;
        break;
      }
    }
  }

  /** The final symbol convention: every space becomes a hyphen. */
  function Hyphenated(sym: string): (r: string)
    ensures |r| == |sym|
    ensures forall i :: 0 <= i < |sym| ==> r[i] == if sym[i] == ' ' then '-' else sym[i]
    ensures ' ' !in r
  {
    ReplaceCharLength(sym, ' ', '-');
    var r := ReplaceAll(sym, " ", "-");
    forall i | 0 <= i < |sym| ensures r[i] == if sym[i] == ' ' then '-' else sym[i] {
      ReplaceCharAt(sym, ' ', '-', i);
    }
    r
  }

  /** A symbol without spaces is left as it is. */
  lemma HyphenatedWithoutSpace(sym: string)
    requires ' ' !in sym
    ensures Hyphenated(sym) == sym
  {
  }

  lemma HyphenatedEngiPa()
    ensures Hyphenated("ENGI.PA") == "ENGI.PA"
  {
    assert forall i :: 0 <= i < |"ENGI.PA"| ==> "ENGI.PA"[i] != ' ';
    HyphenatedWithoutSpace("ENGI.PA");
  }

  /** The symbol an emitted activity carries. */
  function FinalSymbol(sym: string): (r: string)
    ensures ' ' !in r
  {
    Hyphenated(Remapped(sym))
  }

  lemma RemapArrdd()
    ensures Remapped("ARRDd") == "MT.AS"
  {
    LongKeyAbsent("ARRDd", ".USD-PAXOS");
    if Contains("ARRDd", "VUAA") { ContainsChars("ARRDd", "VUAA", 'V'); }
    if Contains("ARRDd", "ENGI") { ContainsChars("ARRDd", "ENGI", 'E'); }
    assert StartsWith("ARRDd", "ARRDd");
    assert ReplaceAll("ARRDd", "ARRDd", "") == "";
  }

  lemma RemapAkza()
    ensures Remapped("AKZA") == "AKZA.AS"
  {
    LongKeyAbsent("AKZA", ".USD-PAXOS");
    if Contains("AKZA", "VUAA") { ContainsChars("AKZA", "VUAA", 'V'); }
    if Contains("AKZA", "ENGI") { ContainsChars("AKZA", "ENGI", 'E'); }
    LongKeyAbsent("AKZA", "ARRDd");
    assert StartsWith("AKZA", "AKZA");
    assert ReplaceAll("AKZA", "AKZA", "") == "";
  }

  lemma RemapEngi()
    ensures Remapped("ENGI") == "ENGI.PA"
  {
    LongKeyAbsent("ENGI", ".USD-PAXOS");
    if Contains("ENGI", "VUAA") { ContainsChars("ENGI", "VUAA", 'V'); }
    assert StartsWith("ENGI", "ENGI");
    assert ReplaceAll("ENGI", "ENGI", "") == "";
  }

  /** Every occurrence of the winning key is removed, not only the first. */
  lemma RemapEngiTwice()
    ensures Remapped("ENGIxENGI") == "x" + "ENGI.PA"
  {
    var sym := "ENGIxENGI";
    LongKeyAbsent(sym, ".USD-PAXOS");
    if Contains(sym, "VUAA") { ContainsChars(sym, "VUAA", 'V'); }
    assert StartsWith(sym, "ENGI");
    ReplaceEngiTwice();
  }

  lemma ReplaceEngiTwice()
    ensures ReplaceAll("ENGIxENGI", "ENGI", "") == "x"
  {
    assert "ENGIxENGI"[..4] == "ENGI" && "ENGIxENGI"[4..] == "xENGI";
    assert "xENGI"[..4] != "ENGI" && "xENGI"[1..] == "ENGI";
    assert "ENGI"[..4] == "ENGI" && "ENGI"[4..] == "";
  }

  lemma RemapAlfen()
    ensures Remapped("ALFEN") == "ALFEN.AS"
  {
    LongKeyAbsent("ALFEN", ".USD-PAXOS");
    if Contains("ALFEN", "VUAA") { ContainsChars("ALFEN", "VUAA", 'V'); }
    if Contains("ALFEN", "ENGI") { ContainsChars("ALFEN", "ENGI", 'G'); }
    if Contains("ALFEN", "ARRDd") { ContainsChars("ALFEN", "ARRDd", 'R'); }
    if Contains("ALFEN", "AKZA") { ContainsChars("ALFEN", "AKZA", 'K'); }
    assert StartsWith("ALFEN", "ALFEN");
    assert ReplaceAll("ALFEN", "ALFEN", "") == "";
  }

  /** The VUAA rule's value is a bare suffix, so the whole ticker is replaced by it. */
  lemma RemapVuaa()
    ensures Remapped("VUAA") == ".L"
  {
    LongKeyAbsent("VUAA", ".USD-PAXOS");
    assert StartsWith("VUAA", "VUAA");
    assert ReplaceAll("VUAA", "VUAA", "") == "";
  }

  lemma RemapUnlisted()
    ensures Remapped("AAPL") == "AAPL"
  {
    LongKeyAbsent("AAPL", ".USD-PAXOS");
    if Contains("AAPL", "VUAA") { ContainsChars("AAPL", "VUAA", 'V'); }
    if Contains("AAPL", "ENGI") { ContainsChars("AAPL", "ENGI", 'E'); }
    if Contains("AAPL", "ARRDd") { ContainsChars("AAPL", "ARRDd", 'R'); }
    if Contains("AAPL", "AKZA") { ContainsChars("AAPL", "AKZA", 'K'); }
    if Contains("AAPL", "ALFEN") { ContainsChars("AAPL", "ALFEN", 'F'); }
  }
}
