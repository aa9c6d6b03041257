/** The character cipher of the VDB backend: the table `gbl_map`, the
    lookup `maplu` and the identifier encoding `map_encode`. */
module Cipher {
  import opened Bytes
  import opened Emit
  import opened Wrappers
  import opened StdMap

  /** The first of two lookups that found something. */
  function Or(a: Option<byte>, b: Option<byte>): Option<byte>
  {
    if a.Some? then a else b
  }

  /** The brace-enclosed initializer list of `gbl_map`: its (character,
      code) pairs in source order, repeated characters included. */
  datatype Entries = End | Entry(key: char, code: byte, rest: Entries)

  function Append(a: Entries, b: Entries): Entries
  {
    match a
    case End => b
    case Entry(k, v, rest) => Entry(k, v, Append(rest, b))
  }

  /** The code listed first for `c`, if any. */
  function Find(l: Entries, c: char): Option<byte>
  {
    match l
    case End => None
    case Entry(k, v, rest) => if k == c then Some(v) else Find(rest, c)
  }

  /** The characters listed. */
  function KeysOf(l: Entries): set<char>
  {
    match l
    case End => {}
    case Entry(k, _, rest) => {k} + KeysOf(rest)
  }

  lemma {:induction false} FindAppend(a: Entries, b: Entries, c: char)
    ensures Find(Append(a, b), c) == Or(Find(a, c), Find(b, c))
  {
    match a
    case End =>
    case Entry(k, v, rest) => FindAppend(rest, b, c);
  }

  lemma {:induction false} KeysAppend(a: Entries, b: Entries)
    ensures KeysOf(Append(a, b)) == KeysOf(a) + KeysOf(b)
  {
    match a
    case End =>
    case Entry(k, v, rest) => KeysAppend(rest, b);
  }

  /** A character has a code in a list exactly when it is listed. */
  lemma {:induction false} FindKeys(l: Entries, c: char)
    ensures Find(l, c).Some? <==> c in KeysOf(l)
  {
    match l
    case End =>
    case Entry(k, v, rest) => FindKeys(rest, c);
  }

  /** The initializer-list constructor of `std::map`: `insert` of every pair
      in order. */
  function InsertAll(m: map<char, byte>, l: Entries): map<char, byte>
    decreases l
  {
    match l
    case End => m
    case Entry(k, v, rest) => InsertAll(Insert(m, k, v), rest)
  }

  function Get(m: map<char, byte>, c: char): Option<byte>
  {
    if c in m then Some(m[c]) else None
  }

  /** Inserting the pairs of a list one by one keeps every key already
      present, and a new key gets the code listed FIRST for it. */
  lemma {:induction false} InsertAllFirstWins(m: map<char, byte>, l: Entries, c: char)
    ensures Get(InsertAll(m, l), c) == Or(Get(m, c), Find(l, c))
    decreases l
  {
    match l
    case End =>
    case Entry(k, v, rest) =>
      InsertMeaning(m, k, v);
      InsertAllFirstWins(Insert(m, k, v), rest, c);
  }

  // The initializer list as written, one constant per source line of
  // backends/vdb/vdb.cc: lines 65-78 are the first half, lines 82-92 the
  // half after the "shplit" comment.
  const Row65: Entries := Entry('[', 0x3c, Entry(']', 0x35, Entry('_', 0x40, Entry('o', 0x60, Entry('[', 0xbd, End)))))
  const Row66: Entries := Entry(']', 0xbc, Entry('d', 0x4a, Entry('a', 0x41, Entry('c', 0x48, Entry('b', 0x43, End)))))
  const Row67: Entries := Entry('0', 0x3e, Entry('I', 0x95, Entry('1', 0x3d, Entry('2', 0x3f, Entry('3', 0x44, End)))))
  const Row68: Entries := Entry('4', 0xaa, Entry('9', 0xa5, Entry('8', 0xa6, Entry('7', 0xa4, Entry('6', 0xab, End)))))
  const Row69: Entries := Entry('5', 0xa9, Entry('T', 0xba, Entry('R', 0xb3, Entry('U', 0xb9, Entry('E', 0x99, End)))))
  const Row70: Entries := Entry('C', 0x98, Entry('X', 0xb6, Entry('A', 0x91, Entry('B', 0x93, Entry('S', 0xb8, End)))))
  const Row71: Entries := Entry('P', 0xb2, Entry('M', 0x9d, Entry('Y', 0xb5, Entry('N', 0x9f, Entry('L', 0x9e, End)))))
  const Row72: Entries := Entry('D', 0x9a, Entry('Q', 0xb1, Entry('J', 0x97, Entry('K', 0x9c, Entry('G', 0x94, End)))))
  const Row73: Entries := Entry('H', 0x96, Entry('z', 0x67, Entry('y', 0x65, Entry('x', 0x66, Entry('w', 0x64, End)))))
  const Row74: Entries := Entry('v', 0x6b, Entry('u', 0x69, Entry('t', 0x6a, Entry('s', 0x68, Entry('r', 0x63, End)))))
  const Row75: Entries := Entry('q', 0x61, Entry('p', 0x62, Entry('n', 0x4f, Entry('m', 0x4d, Entry('l', 0x4e, End)))))
  const Row76: Entries := Entry('k', 0x4c, Entry('j', 0x47, Entry('i', 0x45, Entry('h', 0x46, Entry('g', 0x44, End)))))
  const Row77: Entries := Entry('f', 0x4b, Entry('e', 0x49, Entry('.', 0x8f, Entry('/', 0xa0, Entry('Z', 0xb7, End)))))
  const Row78: Entries := Entry('W', 0xb4, Entry('V', 0xbb, Entry('F', 0x9b, End)))
  const Row82: Entries := Entry('D', 0x13, Entry('A', 0x10, Entry('_', 0x3d, Entry('X', 0x3b, Entry('F', 0x1a, End)))))
  const Row83: Entries := Entry('E', 0x18, Entry('H', 0x1b, Entry('T', 0x33, Entry('I', 0x14, Entry('W', 0x39, End)))))
  const Row84: Entries := Entry('R', 0x32, Entry('B', 0x12, Entry('U', 0x38, Entry('N', 0x1e, Entry('a', 0x80, End)))))
  const Row85: Entries := Entry('1', 0x20, Entry('b', 0x8d, Entry('l', 0x87, Entry('0', 0x0f, Entry('m', 0x8c, End)))))
  const Row86: Entries := Entry('2', 0x22, Entry('3', 0x21, Entry('4', 0x23, Entry('5', 0x28, Entry('6', 0x29, End)))))
  const Row87: Entries := Entry('O', 0x1d, Entry('P', 0x1f, Entry('S', 0x31, Entry('M', 0x1c, Entry('Y', 0x34, End)))))
  const Row88: Entries := Entry('C', 0x11, Entry('L', 0x17, Entry('G', 0x19, Entry('b', 0x82, Entry('V', 0x3a, End)))))
  const Row89: Entries := Entry('J', 0x16, Entry('Z', 0x36, Entry('d', 0x83, Entry('K', 0x15, Entry('Q', 0x30, End)))))
  const Row90: Entries := Entry('c', 0x81, Entry('e', 0x88, Entry('g', 0x89, Entry('i', 0x84, Entry('k', 0x85, End)))))
  const Row91: Entries := Entry('v', 0xaa, Entry('n', 0x8e, Entry('6', 0x2a, Entry('~', 0xae, Entry('f', 0x8a, End)))))
  const Row92: Entries := Entry('$', 0x03, End)

  const FirstHalf: Entries :=
    Append(Row65,
    Append(Row66,
    Append(Row67,
    Append(Row68,
    Append(Row69,
    Append(Row70,
    Append(Row71,
    Append(Row72,
    Append(Row73,
    Append(Row74,
    Append(Row75,
    Append(Row76,
    Append(Row77,
    Row78)))))))))))))

  const Shplit: Entries :=
    Append(Row82,
    Append(Row83,
    Append(Row84,
    Append(Row85,
    Append(Row86,
    Append(Row87,
    Append(Row88,
    Append(Row89,
    Append(Row90,
    Append(Row91,
    Row92))))))))))

  /** `gbl_map`. */
  const GblMap: map<char, byte> := InsertAll(map[], Append(FirstHalf, Shplit))

  /** A lookup in either half is the first hit line by line. */
  lemma FindFirstHalf(c: char)
    ensures Find(FirstHalf, c) ==
      Or(Find(Row65, c),
      Or(Find(Row66, c),
      Or(Find(Row67, c),
      Or(Find(Row68, c),
      Or(Find(Row69, c),
      Or(Find(Row70, c),
      Or(Find(Row71, c),
      Or(Find(Row72, c),
      Or(Find(Row73, c),
      Or(Find(Row74, c),
      Or(Find(Row75, c),
      Or(Find(Row76, c),
      Or(Find(Row77, c),
      Find(Row78, c))))))))))))))
  {
    FindAppend(Row65, Append(Row66, Append(Row67, Append(Row68, Append(Row69, Append(Row70, Append(Row71, Append(Row72, Append(Row73, Append(Row74, Append(Row75, Append(Row76, Append(Row77, Row78)))))))))))), c);
    FindAppend(Row66, Append(Row67, Append(Row68, Append(Row69, Append(Row70, Append(Row71, Append(Row72, Append(Row73, Append(Row74, Append(Row75, Append(Row76, Append(Row77, Row78))))))))))), c);
    FindAppend(Row67, Append(Row68, Append(Row69, Append(Row70, Append(Row71, Append(Row72, Append(Row73, Append(Row74, Append(Row75, Append(Row76, Append(Row77, Row78)))))))))), c);
    FindAppend(Row68, Append(Row69, Append(Row70, Append(Row71, Append(Row72, Append(Row73, Append(Row74, Append(Row75, Append(Row76, Append(Row77, Row78))))))))), c);
    FindAppend(Row69, Append(Row70, Append(Row71, Append(Row72, Append(Row73, Append(Row74, Append(Row75, Append(Row76, Append(Row77, Row78)))))))), c);
    FindAppend(Row70, Append(Row71, Append(Row72, Append(Row73, Append(Row74, Append(Row75, Append(Row76, Append(Row77, Row78))))))), c);
    FindAppend(Row71, Append(Row72, Append(Row73, Append(Row74, Append(Row75, Append(Row76, Append(Row77, Row78)))))), c);
    FindAppend(Row72, Append(Row73, Append(Row74, Append(Row75, Append(Row76, Append(Row77, Row78))))), c);
    FindAppend(Row73, Append(Row74, Append(Row75, Append(Row76, Append(Row77, Row78)))), c);
    FindAppend(Row74, Append(Row75, Append(Row76, Append(Row77, Row78))), c);
    FindAppend(Row75, Append(Row76, Append(Row77, Row78)), c);
    FindAppend(Row76, Append(Row77, Row78), c);
    FindAppend(Row77, Row78, c);
  }

  lemma FindShplit(c: char)
    ensures Find(Shplit, c) ==
      Or(Find(Row82, c),
      Or(Find(Row83, c),
      Or(Find(Row84, c),
      Or(Find(Row85, c),
      Or(Find(Row86, c),
      Or(Find(Row87, c),
      Or(Find(Row88, c),
      Or(Find(Row89, c),
      Or(Find(Row90, c),
      Or(Find(Row91, c),
      Find(Row92, c)))))))))))
  {
    FindAppend(Row82, Append(Row83, Append(Row84, Append(Row85, Append(Row86, Append(Row87, Append(Row88, Append(Row89, Append(Row90, Append(Row91, Row92))))))))), c);
    FindAppend(Row83, Append(Row84, Append(Row85, Append(Row86, Append(Row87, Append(Row88, Append(Row89, Append(Row90, Append(Row91, Row92)))))))), c);
    FindAppend(Row84, Append(Row85, Append(Row86, Append(Row87, Append(Row88, Append(Row89, Append(Row90, Append(Row91, Row92))))))), c);
    FindAppend(Row85, Append(Row86, Append(Row87, Append(Row88, Append(Row89, Append(Row90, Append(Row91, Row92)))))), c);
    FindAppend(Row86, Append(Row87, Append(Row88, Append(Row89, Append(Row90, Append(Row91, Row92))))), c);
    FindAppend(Row87, Append(Row88, Append(Row89, Append(Row90, Append(Row91, Row92)))), c);
    FindAppend(Row88, Append(Row89, Append(Row90, Append(Row91, Row92))), c);
    FindAppend(Row89, Append(Row90, Append(Row91, Row92)), c);
    FindAppend(Row90, Append(Row91, Row92), c);
    FindAppend(Row91, Row92, c);
  }

  lemma KeysFirstHalf()
    ensures KeysOf(FirstHalf) ==
      KeysOf(Row65) + KeysOf(Row66) + KeysOf(Row67) + KeysOf(Row68) +
      KeysOf(Row69) + KeysOf(Row70) + KeysOf(Row71) + KeysOf(Row72) +
      KeysOf(Row73) + KeysOf(Row74) + KeysOf(Row75) + KeysOf(Row76) +
      KeysOf(Row77) + KeysOf(Row78)
  {
    KeysAppend(Row65, Append(Row66, Append(Row67, Append(Row68, Append(Row69, Append(Row70, Append(Row71, Append(Row72, Append(Row73, Append(Row74, Append(Row75, Append(Row76, Append(Row77, Row78)))))))))))));
    KeysAppend(Row66, Append(Row67, Append(Row68, Append(Row69, Append(Row70, Append(Row71, Append(Row72, Append(Row73, Append(Row74, Append(Row75, Append(Row76, Append(Row77, Row78))))))))))));
    KeysAppend(Row67, Append(Row68, Append(Row69, Append(Row70, Append(Row71, Append(Row72, Append(Row73, Append(Row74, Append(Row75, Append(Row76, Append(Row77, Row78)))))))))));
    KeysAppend(Row68, Append(Row69, Append(Row70, Append(Row71, Append(Row72, Append(Row73, Append(Row74, Append(Row75, Append(Row76, Append(Row77, Row78))))))))));
    KeysAppend(Row69, Append(Row70, Append(Row71, Append(Row72, Append(Row73, Append(Row74, Append(Row75, Append(Row76, Append(Row77, Row78)))))))));
    KeysAppend(Row70, Append(Row71, Append(Row72, Append(Row73, Append(Row74, Append(Row75, Append(Row76, Append(Row77, Row78))))))));
    KeysAppend(Row71, Append(Row72, Append(Row73, Append(Row74, Append(Row75, Append(Row76, Append(Row77, Row78)))))));
    KeysAppend(Row72, Append(Row73, Append(Row74, Append(Row75, Append(Row76, Append(Row77, Row78))))));
    KeysAppend(Row73, Append(Row74, Append(Row75, Append(Row76, Append(Row77, Row78)))));
    KeysAppend(Row74, Append(Row75, Append(Row76, Append(Row77, Row78))));
    KeysAppend(Row75, Append(Row76, Append(Row77, Row78)));
    KeysAppend(Row76, Append(Row77, Row78));
    KeysAppend(Row77, Row78);
  }

  lemma KeysShplit()
    ensures KeysOf(Shplit) ==
      KeysOf(Row82) + KeysOf(Row83) + KeysOf(Row84) + KeysOf(Row85) +
      KeysOf(Row86) + KeysOf(Row87) + KeysOf(Row88) + KeysOf(Row89) +
      KeysOf(Row90) + KeysOf(Row91) + KeysOf(Row92)
  {
    KeysAppend(Row82, Append(Row83, Append(Row84, Append(Row85, Append(Row86, Append(Row87, Append(Row88, Append(Row89, Append(Row90, Append(Row91, Row92))))))))));
    KeysAppend(Row83, Append(Row84, Append(Row85, Append(Row86, Append(Row87, Append(Row88, Append(Row89, Append(Row90, Append(Row91, Row92)))))))));
    KeysAppend(Row84, Append(Row85, Append(Row86, Append(Row87, Append(Row88, Append(Row89, Append(Row90, Append(Row91, Row92))))))));
    KeysAppend(Row85, Append(Row86, Append(Row87, Append(Row88, Append(Row89, Append(Row90, Append(Row91, Row92)))))));
    KeysAppend(Row86, Append(Row87, Append(Row88, Append(Row89, Append(Row90, Append(Row91, Row92))))));
    KeysAppend(Row87, Append(Row88, Append(Row89, Append(Row90, Append(Row91, Row92)))));
    KeysAppend(Row88, Append(Row89, Append(Row90, Append(Row91, Row92))));
    KeysAppend(Row89, Append(Row90, Append(Row91, Row92)));
    KeysAppend(Row90, Append(Row91, Row92));
    KeysAppend(Row91, Row92);
  }

  /** `gbl_map` gives `c` the code listed first for it in the first half,
      and only when the first half does not list `c`, the code listed
      first in the second half. */
  lemma GblMapLookup(c: char)
    ensures Get(GblMap, c) == Or(Find(FirstHalf, c), Find(Shplit, c))
  {
    InsertAllFirstWins(map[], Append(FirstHalf, Shplit), c);
    FindAppend(FirstHalf, Shplit, c);
  }

  /** Every character of the first half has a code. */
  lemma FirstHalfMapped(c: char)
    requires c in KeysOf(FirstHalf)
    ensures c in GblMap
  {
    GblMapLookup(c);
    FindKeys(FirstHalf, c);
  }

  /** Repeated characters keep their first code: `'['` is listed again on
      line 65 with 0xbd, `']'` again on line 66 with 0xbc, and `'_'` and
      `'D'` again in the second half with 0x3d and 0x13. */
  lemma FirstListedWins()
    ensures Find(Row66, ']') == Some(0xbc)
    ensures Find(Shplit, '_') == Some(0x3d) && Find(Shplit, 'D') == Some(0x13)
    ensures Get(GblMap, '[') == Some(0x3c)
    ensures Get(GblMap, ']') == Some(0x35)
    ensures Get(GblMap, '_') == Some(0x40)
    ensures Get(GblMap, 'D') == Some(0x9a)
  {
    assert Find(Shplit, '_') == Some(0x3d) by { FindShplit('_'); }
    assert Find(Shplit, 'D') == Some(0x13) by { FindShplit('D'); }
    assert Get(GblMap, '[') == Some(0x3c) by { GblMapLookup('['); FindFirstHalf('['); }
    assert Get(GblMap, ']') == Some(0x35) by { GblMapLookup(']'); FindFirstHalf(']'); }
    assert Get(GblMap, '_') == Some(0x40) by { GblMapLookup('_'); FindFirstHalf('_'); }
    assert Get(GblMap, 'D') == Some(0x9a) by { GblMapLookup('D'); FindFirstHalf('D'); }
  }

  /** Every character listed in `l` is listed in the first half too, or is
      one of `'O'`, `'~'` and `'$'`. */
  predicate AddsAtMostOTildeDollar(l: Entries)
  {
    match l
    case End => true
    case Entry(k, _, rest) =>
      (k == 'O' || k == '~' || k == '$' || k in KeysOf(FirstHalf)) && AddsAtMostOTildeDollar(rest)
  }

  lemma {:induction false} AddsAtMostFind(l: Entries, c: char)
    requires AddsAtMostOTildeDollar(l)
    requires Find(l, c).Some?
    ensures c == 'O' || c == '~' || c == '$' || c in KeysOf(FirstHalf)
  {
    match l
    case End =>
    case Entry(k, _, rest) =>
      if k != c {
        AddsAtMostFind(rest, c);
      }
  }

  /** Line by line, the second half adds nothing else. */
  lemma ShplitLinesAddAtMost()
    ensures AddsAtMostOTildeDollar(Row82)
    ensures AddsAtMostOTildeDollar(Row83)
    ensures AddsAtMostOTildeDollar(Row84)
    ensures AddsAtMostOTildeDollar(Row85)
    ensures AddsAtMostOTildeDollar(Row86)
    ensures AddsAtMostOTildeDollar(Row87)
    ensures AddsAtMostOTildeDollar(Row88)
    ensures AddsAtMostOTildeDollar(Row89)
    ensures AddsAtMostOTildeDollar(Row90)
    ensures AddsAtMostOTildeDollar(Row91)
    ensures AddsAtMostOTildeDollar(Row92)
  {
    KeysFirstHalf();
  }

  lemma ShplitOnlyAdds(c: char)
    requires Find(Shplit, c).Some?
    ensures c == 'O' || c == '~' || c == '$' || Find(FirstHalf, c).Some?
  {
    FindShplit(c);
    ShplitLinesAddAtMost();
    if Find(Row82, c).Some? { AddsAtMostFind(Row82, c); }
    if Find(Row83, c).Some? { AddsAtMostFind(Row83, c); }
    if Find(Row84, c).Some? { AddsAtMostFind(Row84, c); }
    if Find(Row85, c).Some? { AddsAtMostFind(Row85, c); }
    if Find(Row86, c).Some? { AddsAtMostFind(Row86, c); }
    if Find(Row87, c).Some? { AddsAtMostFind(Row87, c); }
    if Find(Row88, c).Some? { AddsAtMostFind(Row88, c); }
    if Find(Row89, c).Some? { AddsAtMostFind(Row89, c); }
    if Find(Row90, c).Some? { AddsAtMostFind(Row90, c); }
    if Find(Row91, c).Some? { AddsAtMostFind(Row91, c); }
    if Find(Row92, c).Some? { AddsAtMostFind(Row92, c); }
    FindKeys(FirstHalf, c);
  }

  lemma NotInFirstHalf()
    ensures Find(FirstHalf, 'O') == None
    ensures Find(FirstHalf, '~') == None
    ensures Find(FirstHalf, '$') == None
  {
    FindFirstHalf('O'); FindFirstHalf('~'); FindFirstHalf('$');
  }

  /** The second half adds exactly three characters to the table:
      `'O'`, `'~'` and `'$'`. */
  lemma ShplitAddsExactly(c: char)
    ensures c in GblMap && Find(FirstHalf, c).None? <==> c == 'O' || c == '~' || c == '$'
    ensures Get(GblMap, 'O') == Some(0x1d) && Get(GblMap, '~') == Some(0xae) && Get(GblMap, '$') == Some(0x03)
  {
    NotInFirstHalf();
    FindShplit('O'); FindShplit('~'); FindShplit('$');
    GblMapLookup('O'); GblMapLookup('~'); GblMapLookup('$');
    GblMapLookup(c);
    if c in GblMap && Find(FirstHalf, c).None? {
      ShplitOnlyAdds(c);
    }
  }

  /** The table is not injective. */
  lemma NotInjective()
    ensures '3' != 'g' && Get(GblMap, '3') == Some(0x44) && Get(GblMap, 'g') == Some(0x44)
  {
    GblMapLookup('3'); FindFirstHalf('3');
    GblMapLookup('g'); FindFirstHalf('g');
  }

  /** `maplu(c)`: the code `gbl_map` holds for `c`; a character without one
      is fatal (`log_error` does not return, so the `return 0` after it is
      never reached). */
  function Maplu(c: char): Result<byte>
  {
    if c in GblMap then Ok(GblMap[c]) else Err(UnmappedCharacter(c))
  }

  /** `maplu` returns the code listed first for `c` in the table's source,
      and fails exactly on the characters the table does not list. */
  lemma MapluListed(c: char)
    ensures Maplu(c).Ok? <==> Find(Append(FirstHalf, Shplit), c).Some?
    ensures Maplu(c).Ok? ==> Maplu(c).value == Find(Append(FirstHalf, Shplit), c).value
    ensures Maplu(c).Err? ==> Maplu(c).error == UnmappedCharacter(c)
  {
    GblMapLookup(c);
    FindAppend(FirstHalf, Shplit, c);
  }

  /** Every character of `s` has a code. */
  predicate Mapped(s: string)
  {
    forall i :: 0 <= i < |s| ==> s[i] in GblMap
  }

  /** `s[k]` is the last character of `s` without a code: the one the loop
      of `map_encode`, which walks `s` from its end, fails on. */
  predicate LastUnmapped(s: string, k: int)
  {
    0 <= k < |s| && s[k] !in GblMap && forall j :: k < j < |s| ==> s[j] in GblMap
  }

  /** The codes `map_encode` pushes after the length: those of the
      characters of `s` from last to first. */
  function EncodeChars(s: string): (r: Result<seq<byte>>)
    ensures r.Ok? <==> Mapped(s)
    ensures r.Ok? ==> |r.value| == |s|
    ensures r.Ok? ==> forall i :: 0 <= i < |s| ==> r.value[i] == GblMap[s[|s| - 1 - i]]
    ensures r.Err? ==> exists k :: LastUnmapped(s, k) && r.error == UnmappedCharacter(s[k])
  {
    if s == [] then Ok([])
    else
      match Maplu(s[|s| - 1])
      case Err(e) =>
        assert LastUnmapped(s, |s| - 1);
        Err(e)
      case Ok(b) =>
        match EncodeChars(s[..|s| - 1])
        case Err(e) =>
          var k :| LastUnmapped(s[..|s| - 1], k) && e == UnmappedCharacter(s[..|s| - 1][k]);
          assert LastUnmapped(s, k);
          Err(e)
        case Ok(rest) => Ok([b] + rest)
  }

  /** `map_encode(s)`: the length of `s` as one byte, then the codes of its
      characters from last to first. */
  function Encode(s: string): (r: Result<seq<byte>>)
    ensures r.Ok? <==> Mapped(s)
    ensures r.Ok? ==> |r.value| == |s| + 1 && r.value[0] == |s| % 0x100
    ensures r.Ok? ==> forall i :: 1 <= i <= |s| ==> r.value[i] == GblMap[s[|s| - i]]
    ensures r.Err? ==> exists k :: LastUnmapped(s, k) && r.error == UnmappedCharacter(s[k])
  {
    match EncodeChars(s)
    case Ok(codes) => Ok([|s| % 0x100] + codes)
    case Err(e) => Err(e)
  }

  /** The codes after the length byte are the reversed map of the string. */
  lemma EncodeReversed(s: string)
    requires Mapped(s)
    ensures Encode(s) == Ok([|s| % 0x100] + Reversed(seq(|s|, i requires 0 <= i < |s| => GblMap[s[i]])))
  {
    var codes := seq(|s|, i requires 0 <= i < |s| => GblMap[s[i]]);
    ReversedAt(codes);
    assert Encode(s).value == [|s| % 0x100] + Reversed(codes);
  }

  /** `map_encode("add")` is `[0x03, 0x4a, 0x4a, 0x41]`. */
  lemma EncodeAdd()
    ensures Encode("add") == Ok([0x03, 0x4a, 0x4a, 0x41])
  {
    GblMapLookup('a'); FindFirstHalf('a');
    GblMapLookup('d'); FindFirstHalf('d');
    assert GblMap['a'] == 0x41 && GblMap['d'] == 0x4a;
    assert Mapped("add");
    var r := Encode("add").value;
    assert r[1] == GblMap["add"[2]] && r[2] == GblMap["add"[1]] && r[3] == GblMap["add"[0]];
    assert r == [0x03, 0x4a, 0x4a, 0x41];
  }

  /** The library name written into every header. */
  const LibraryName: string := "efxphysicallib"

  lemma LibraryNameCharsListed()
    ensures 'e' in KeysOf(FirstHalf) && 'f' in KeysOf(FirstHalf) && 'x' in KeysOf(FirstHalf)
    ensures 'p' in KeysOf(FirstHalf) && 'h' in KeysOf(FirstHalf) && 'y' in KeysOf(FirstHalf)
    ensures 's' in KeysOf(FirstHalf) && 'i' in KeysOf(FirstHalf) && 'c' in KeysOf(FirstHalf)
    ensures 'a' in KeysOf(FirstHalf) && 'l' in KeysOf(FirstHalf) && 'b' in KeysOf(FirstHalf)
  {
    KeysFirstHalf();
  }

  /** `map_encode("efxphysicallib")` succeeds and is 15 bytes long. */
  lemma LibraryNameEncodes()
    ensures Encode(LibraryName).Ok?
    ensures |Encode(LibraryName).value| == 15 && Encode(LibraryName).value[0] == 14
  {
    LibraryNameCharsListed();
    FirstHalfMapped('e'); FirstHalfMapped('f'); FirstHalfMapped('x'); FirstHalfMapped('p');
    FirstHalfMapped('h'); FirstHalfMapped('y'); FirstHalfMapped('s'); FirstHalfMapped('i');
    FirstHalfMapped('c'); FirstHalfMapped('a'); FirstHalfMapped('l'); FirstHalfMapped('b');
    assert Mapped(LibraryName);
  }

}
