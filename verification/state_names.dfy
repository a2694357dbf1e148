/** The state-code to state-name tables. The map page (src/app/mapa/page.tsx) and the
    map component (src/components/BrazilMap.tsx) upper-case the code before the lookup;
    the modal (src/components/ViewerModal.tsx) looks the code up as given. */
module StateNames {
  import opened Wrappers
  import opened Text

  /** The object literal `stateNames`: the 26 states and the federal district. */
  const Table: seq<(string, string)> := [
    ("AC", "Acre"), ("AL", "Alagoas"), ("AP", "Amapá"), ("AM", "Amazonas"),
    ("BA", "Bahia"), ("CE", "Ceará"), ("DF", "Distrito Federal"), ("ES", "Espírito Santo"),
    ("GO", "Goiás"), ("MA", "Maranhão"), ("MT", "Mato Grosso"), ("MS", "Mato Grosso do Sul"),
    ("MG", "Minas Gerais"), ("PA", "Pará"), ("PB", "Paraíba"), ("PR", "Paraná"),
    ("PE", "Pernambuco"), ("PI", "Piauí"), ("RJ", "Rio de Janeiro"), ("RN", "Rio Grande do Norte"),
    ("RS", "Rio Grande do Sul"), ("RO", "Rondônia"), ("RR", "Roraima"), ("SC", "Santa Catarina"),
    ("SP", "São Paulo"), ("SE", "Sergipe"), ("TO", "Tocantins")]

  /** Two upper-case ASCII letters. */
  predicate IsUpperCode(k: string) {
    |k| == 2 && 'A' <= k[0] <= 'Z' && 'A' <= k[1] <= 'Z'
  }

  /** `stateNames[key]`: the name listed for `key`, if any. */
  function NameOf(table: seq<(string, string)>, key: string): (r: Option<string>)
    ensures r.None? <==> forall i :: 0 <= i < |table| ==> table[i].0 != key
    ensures r.Some? ==> exists i :: 0 <= i < |table| && table[i] == (key, r.value)
  {
    if |table| == 0 then None
    else if table[0].0 == key then Some(table[0].1)
    else
      var r := NameOf(table[1..], key);
      assert r.Some? ==> table[1..][0] == table[1];
      r
  }

  /** `stateNames[key] || fallback`: no listed name is empty, so `||` only falls back
      when the key is missing. */
  function Lookup(key: string, fallback: string): string {
    match NameOf(Table, key)
    case Some(name) => name
    case None => fallback
  }

  /** `getStateName` of the map page and the map component. */
  function StateName(code: string): (name: string)
    ensures (forall i :: 0 <= i < |Table| ==> Table[i].0 != Upper(code)) ==> name == code
    ensures name == code || exists i :: 0 <= i < |Table| && Table[i] == (Upper(code), name)
    ensures NameOf(Table, Upper(code)).Some? ==> name == NameOf(Table, Upper(code)).value
  {
    Lookup(Upper(code), code)
  }

  /** `getStateName` of the modal: no upper-casing. */
  function ModalStateName(code: string): (name: string)
    ensures (forall i :: 0 <= i < |Table| ==> Table[i].0 != code) ==> name == code
    ensures name == code || exists i :: 0 <= i < |Table| && Table[i] == (code, name)
    ensures NameOf(Table, code).Some? ==> name == NameOf(Table, code).value
  {
    Lookup(code, code)
  }

  lemma UpperCodeIsUpper(k: string)
    requires IsUpperCode(k)
    ensures Upper(k) == k
  {
    assert Upper(k) == [UpperChar(k[0]), UpperChar(k[1])];
  }

  /** The table lists 27 codes, each two upper-case letters, and every name is longer
      than a code (in particular none is empty). */
  lemma TableShape()
    ensures |Table| == 27
    ensures forall i :: 0 <= i < |Table| ==> IsUpperCode(Table[i].0) && |Table[i].1| > 2
  {
  }

  /** The page's lookup ignores letter case: codes that upper-case alike get the same
      name when known, and an unknown code is shown unchanged. */
  lemma StateNameIgnoresCase(a: string, b: string)
    requires Upper(a) == Upper(b)
    ensures NameOf(Table, Upper(a)).Some? ==> StateName(a) == StateName(b) == NameOf(Table, Upper(a)).value
    ensures NameOf(Table, Upper(a)).None? ==> StateName(a) == a && StateName(b) == b
  {
  }

  /** The two lookups agree on codes without lower-case ASCII letters. */
  lemma ModalAgreesOnUpperCase(code: string)
    requires Upper(code) == code
    ensures ModalStateName(code) == StateName(code)
  {
  }

  /** A code that is not two upper-case letters is not a key of the table. */
  lemma LowerCaseNotListed(code: string)
    requires !IsUpperCode(code)
    ensures forall i :: 0 <= i < |Table| ==> Table[i].0 != code
  {
    TableShape();
  }

  /** On a known code written with a lower-case letter (`"sp"` for `"SP"`) the modal
      falls back to the code itself while the page and the map show the state's name. */
  lemma ModalFallsBackOnLowerCase(i: nat, code: string)
    requires i < |Table|
    requires Upper(code) == Table[i].0 && code != Table[i].0
    ensures ModalStateName(code) == code
    ensures StateName(code) == NameOf(Table, Table[i].0).value != code
  {
    TableShape();
    if IsUpperCode(code) {
      UpperCodeIsUpper(code);
      assert false;
    }
    LowerCaseNotListed(code);
    var name := NameOf(Table, Upper(code)).value;
    var j :| 0 <= j < |Table| && Table[j] == (Upper(code), name);
    assert |code| == |Upper(code)| == 2 < |name|;
  }
}
