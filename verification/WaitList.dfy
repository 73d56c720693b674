/**
 parsePrefixList (bgp.go): from the entries a script waits for to observed-set keys. netip.ParsePrefix
 and the canonicalizers of route descriptors are given as functions.
 */
module WaitList {
  import opened Outcomes
  import opened PathKey
  import opened Nlri

  /** netip.ParsePrefix(base).String(), if it parses. */
  type Canon = string -> Option<string>

  /** What netip prints is a prefix. */
  ghost predicate PrintsPrefixes(canon: Canon) {
    forall base :: canon(base).Some? ==> PrefixShaped(canon(base).value)
  }

  /** An element of the array. A descriptor has been canonicalized, or refused, by its family's code; its
      pathId is the 64-bit integer the script gave. */
  datatype Entry =
    | Nullish
    | Text(s: string)
    | Descriptor(key: Option<string>, pathId: Option<int>)

  datatype EntryError = IsNullish | BadPathId(text: string) | BadPrefix(base: string) | BadDescriptor

  datatype ListError = EmptyList | BadEntry(i: nat, e: EntryError)

  /** uint32 of an int64 */
  function U32(n: int): nat { n % 0x1_0000_0000 }

  function EntryKey(canon: Canon, e: Entry): Result<string, EntryError> {
    match e
    case Nullish => Err(IsNullish)
    case Text(s) =>
      (match SplitPathId(s)
       case Err(text) => Err(BadPathId(text))
       case Ok(split) =>
         if canon(split.base).None? then Err(BadPrefix(split.base))
         else Ok(canon(split.base).value + split.suffix))
    case Descriptor(key, pathId) =>
      if key.None? then Err(BadDescriptor)
      else if pathId.None? then Ok(key.value)
      else Ok(PathString(key.value, U32(pathId.value)))
  }

  method ParsePrefixList(canon: Canon, entries: seq<Entry>) returns (r: Result<seq<string>, ListError>)
    ensures match r
            case Ok(out) => entries != [] && Parsed(canon, entries, out)
            case Err(EmptyList) => entries == []
            case Err(BadEntry(i, e)) =>
              && i < |entries| && EntryKey(canon, entries[i]) == Err(e)
              && forall j :: 0 <= j < i ==> EntryKey(canon, entries[j]).Ok?
  {
    if |entries| == 0 { return Err(EmptyList); }
    var out := seq(|entries|, _ => "");
    for i := 0 to |entries|
      invariant |out| == |entries|
      invariant forall j :: 0 <= j < i ==> EntryKey(canon, entries[j]) == Ok(out[j])
    {
      var key: string;
      match entries[i] {
        case Nullish => return Err(BadEntry(i, IsNullish));
        case Text(s) =>
          var split := SplitPathId(s);
          if split.Err? { return Err(BadEntry(i, BadPathId(split.error))); }
          var pref := canon(split.value.base);
          if pref.None? { return Err(BadEntry(i, BadPrefix(split.value.base))); }
          key := pref.value + split.value.suffix;
        case Descriptor(k, pathId) =>
          if k.None? { return Err(BadEntry(i, BadDescriptor)); }
          key := if pathId.Some? then PathString(k.value, U32(pathId.value)) else k.value;
      }
      out := out[i := key];
    }
    return Ok(out);
  }

  ghost predicate Parsed(canon: Canon, entries: seq<Entry>, out: seq<string>) {
    |out| == |entries| && forall i :: 0 <= i < |entries| ==> EntryKey(canon, entries[i]) == Ok(out[i])
  }

  /** The text asks for n under the key style of the session: its prefix is n's, and it shows a Path
      Identifier exactly if keys do, which is n's in any 32-bit decimal notation. */
  ghost predicate AsksFor(canon: Canon, s: string, addPath: bool, n: PathNlri) {
    var base := if Cut(s).Some? then Cut(s).value.0 else s;
    && canon(base) == Some(n.name)
    && (addPath <==> Cut(s).Some?)
    && (addPath ==> ParseUint32(Cut(s).value.1) == Some(n.id))
  }

  /** What a text is turned into: its prefix as netip prints it, and its Path Identifier in plain decimal. */
  lemma TextParts(canon: Canon, s: string)
    ensures var base := if Cut(s).Some? then Cut(s).value.0 else s;
            var id := if Cut(s).Some? then ParseUint32(Cut(s).value.1) else None;
            && (EntryKey(canon, Text(s)).Ok? <==> canon(base).Some? && (Cut(s).Some? ==> id.Some?))
            && (EntryKey(canon, Text(s)).Ok? ==> EntryKey(canon, Text(s)).value == canon(base).value + Suffix(id))
  {
  }

  /** A text becomes the key the receiver records for n exactly when it asks for n. */
  lemma TextBecomesKey(canon: Canon, s: string, addPath: bool, n: PathNlri)
    requires PrintsPrefixes(canon) && IpNlri(n)
    ensures EntryKey(canon, Text(s)) == Ok(KeyOf(addPath, n)) <==> AsksFor(canon, s, addPath, n)
  {
    TextParts(canon, s);
    KeyText(addPath, n);
    if EntryKey(canon, Text(s)).Ok? {
      var base := if Cut(s).Some? then Cut(s).value.0 else s;
      var id := if Cut(s).Some? then ParseUint32(Cut(s).value.1) else None;
      KeyParts(canon(base).value, id, n.name, ShownId(addPath, n));
    }
  }

  lemma KeyText(addPath: bool, n: PathNlri)
    ensures KeyOf(addPath, n) == n.name + Suffix(ShownId(addPath, n))
  {
    assert n.name + "" == n.name;
    assert n.name + (":" + Decimal(n.id)) == n.name + ":" + Decimal(n.id);
  }
}
