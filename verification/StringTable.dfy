/** String tables (System V ABI, chapter 4, "String Table"). */
module StringTable {
  import opened ElfCodec
  import opened ElfFunctions

  /** A name that a table can hold: one byte a character, no NUL. */
  predicate Storable(name: string) {
    forall i | 0 <= i < |name| :: 0 < name[i] as int < 256
  }

  function Bytes(name: string): (b: seq<Octet>)
    requires Storable(name)
    ensures |b| == |name| && forall i | 0 <= i < |b| :: b[i] as char == name[i] && b[i] != 0
  {
    seq(|name|, i requires 0 <= i < |name| && Storable(name) => name[i] as int)
  }

  /** The names one after the other, each with its NUL. */
  function Table(names: seq<string>): seq<Octet>
    requires forall n | n in names :: Storable(n)
  {
    if names == [] then [] else Bytes(names[0]) + [0] + Table(names[1..])
  }

  /** Where name `i` starts. */
  function Start(names: seq<string>, i: nat): nat
    requires i < |names|
  {
    if i == 0 then 0 else |names[0]| + 1 + Start(names[1..], i - 1)
  }

  lemma {:induction false} NameBeforeNul(data: seq<Octet>, offset: nat, name: string)
    requires Storable(name) && offset + |name| < |data|
    requires data[offset..offset + |name|] == Bytes(name) && data[offset + |name|] == 0
    ensures Terminated(data, offset) && CString(data, offset) == name
    decreases |name|
  {
    if name != "" {
      assert data[offset] == data[offset..offset + |name|][0];
      assert data[offset + 1..offset + |name|] == Bytes(name[1..]);
      NameBeforeNul(data, offset + 1, name[1..]);
    }
  }

  lemma {:induction false} NameIsAtStart(names: seq<string>, i: nat)
    requires (forall n | n in names :: Storable(n)) && i < |names|
    ensures Start(names, i) + |names[i]| < |Table(names)|
    ensures Table(names)[Start(names, i)..Start(names, i) + |names[i]|] == Bytes(names[i])
    ensures Table(names)[Start(names, i) + |names[i]|] == 0
    decreases i
  {
    hide Bytes, Storable;
    assert names[0] in names;
    var first := Bytes(names[0]) + [0];
    var table := Table(names);
    assert table == first + Table(names[1..]);
    if i == 0 {
      assert table[..|names[0]|] == Bytes(names[0]);
    } else {
      NameIsAtStart(names[1..], i - 1);
      var s, n := Start(names[1..], i - 1), |names[i]|;
      assert Start(names, i) == |first| + s;
      assert table[|first| + s..|first| + s + n] == Table(names[1..])[s..s + n];
    }
  }

  lemma SuffixIsStorable(name: string, k: nat)
    requires Storable(name) && k <= |name|
    ensures Storable(name[k..]) && Bytes(name)[k..] == Bytes(name[k..])
  {
  }

  /** Looking up the start of a name gives the name, and any offset inside it the rest of the name. */
  lemma LookupGivesSuffix(names: seq<string>, i: nat, k: nat)
    requires (forall n | n in names :: Storable(n)) && i < |names| && k <= |names[i]|
    ensures Terminated(Table(names), Start(names, i) + k)
    ensures CString(Table(names), Start(names, i) + k) == names[i][k..]
  {
    hide Table, Start, CString, Terminated, Storable;
    NameIsAtStart(names, i);
    assert names[i] in names;
    SuffixIsStorable(names[i], k);
    var table, s, n := Table(names), Start(names, i), |names[i]|;
    assert table[s + k..s + n] == table[s..s + n][k..];
    NameBeforeNul(table, s + k, names[i][k..]);
  }
}
