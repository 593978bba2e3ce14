/** The verifier's key pairs, read from one configuration string. */
module Credentials {
  import opened Basics
  import opened Text

  /** One entry, if it is of the form `access:secret` with both sides not blank. */
  function Entry(cred: string): Option<Pair> {
    var parts := SplitOnce(cred, ':');
    if |parts| != 2 then None
    else
      var access, secret := Trim(parts[0]), Trim(parts[1]);
      if access == [] || secret == [] then None else Some((access, secret))
  }

  type Pair = (string, string)

  function Entries(creds: seq<string>): (r: seq<Option<Pair>>)
    ensures |r| == |creds|
    ensures forall i :: 0 <= i < |creds| ==> r[i] == Entry(creds[i])
  {
    if creds == [] then [] else Entries(creds[..|creds| - 1]) + [Entry(creds[|creds| - 1])]
  }

  /** The table after the first `n` entries; later ones win. */
  function Table(entries: seq<Option<Pair>>, n: nat): map<string, string>
    requires n <= |entries|
  {
    if n == 0 then map[]
    else
      match entries[n - 1]
      case None => Table(entries, n - 1)
      case Some((access, secret)) => Table(entries, n - 1)[access := secret]
  }

  /** `new_from_str`. */
  function FromStr(creds: string): Option<map<string, string>> {
    if Trim(creds) == [] then None
    else
      var entries := Entries(Split(creds, ';'));
      var table := Table(entries, |entries|);
      if table == map[] then None else Some(table)
  }

  method ReadEntry(cred: string) returns (entry: Option<Pair>)
    ensures entry == Entry(cred)
  {
    var parts := SplitOnce(cred, ':');
    if |parts| != 2 {
      return None;
    }
    var access, secret := Trim(parts[0]), Trim(parts[1]);
    if access == [] || secret == [] {
      return None;
    }
    entry := Some((access, secret));
  }

  method ReadTable(creds: seq<string>) returns (credentials: map<string, string>)
    ensures credentials == Table(Entries(creds), |creds|)
  {
    credentials := map[];
    ghost var entries := Entries(creds);
    for i := 0 to |creds|
      invariant credentials == Table(entries, i)
    {
      var entry := ReadEntry(creds[i]);
      assert entry == entries[i];
      if entry.Some? {
        credentials := credentials[entry.value.0 := entry.value.1];
      }
    }
  }

  method NewFromStr(credsStr: string) returns (table: Option<map<string, string>>)
    ensures table == FromStr(credsStr)
  {
    if Trim(credsStr) == [] {
      return None;
    }
    var credentials := ReadTable(Split(credsStr, ';'));
    table := if credentials == map[] then None else Some(credentials);
  }

  function PrintPair(access: string, secret: string): string {
    access + [':'] + secret
  }

  /** A pair that can be written down: not blank at its ends, and without the separators. */
  predicate Storable(access: string, secret: string) {
    && access != [] && Trim(access) == access && ':' !in access && ';' !in access
    && secret != [] && Trim(secret) == secret && ';' !in secret
  }

  /** Trimming is idempotent. */
  lemma TrimTwice(s: string)
    ensures Trim(Trim(s)) == Trim(s)
  {
    var t := Trim(s);
    var u := TrimStart(s);
    assert TrimEnd(u) <= u;
    assert t != [] ==> t[0] == u[0];
    TrimKeeps(t);
  }

  /** Whatever is read can be written down again. */
  lemma EntryStorable(cred: string)
    requires ';' !in cred && Entry(cred).Some?
    ensures Storable(Entry(cred).value.0, Entry(cred).value.1)
  {
    var parts := SplitOnce(cred, ':');
    TrimTwice(parts[0]);
    TrimTwice(parts[1]);
    assert forall c :: c in parts[0] || c in parts[1] ==> c in parts[0] + [':'] + parts[1];
    TrimSubtext(parts[0], ':');
    TrimSubtext(parts[0], ';');
    TrimSubtext(parts[1], ';');
  }

  /** What holds of every entry holds of the table. */
  lemma {:induction false} TableAll(entries: seq<Option<Pair>>, n: nat, ok: (string, string) -> bool)
    requires n <= |entries|
    requires forall i :: 0 <= i < |entries| && entries[i].Some? ==> ok(entries[i].value.0, entries[i].value.1)
    ensures forall access :: access in Table(entries, n) ==> ok(access, Table(entries, n)[access])
  {
    if n > 0 {
      TableAll(entries, n - 1, ok);
    }
  }

  /** Every key pair in use can be written down again. */
  lemma ReadPairsStorable(creds: string)
    requires FromStr(creds).Some?
    ensures forall access :: access in FromStr(creds).value ==> Storable(access, FromStr(creds).value[access])
  {
    var parts := Split(creds, ';');
    var entries := Entries(parts);
    forall i | 0 <= i < |entries| && entries[i].Some?
      ensures Storable(entries[i].value.0, entries[i].value.1)
    {
      EntryStorable(parts[i]);
    }
    TableAll(entries, |entries|, Storable);
  }

  lemma EntryOfPair(access: string, secret: string)
    requires Storable(access, secret)
    ensures Entry(PrintPair(access, secret)) == Some((access, secret)) && ';' !in PrintPair(access, secret)
  {
    SplitHead(access, ':', secret);
  }

  /** The pairs, printed one after the other. */
  function PrintPairs(pairs: seq<Pair>): (r: seq<string>)
    ensures |r| == |pairs|
    ensures forall i :: 0 <= i < |pairs| ==> r[i] == PrintPair(pairs[i].0, pairs[i].1)
  {
    seq(|pairs|, i requires 0 <= i < |pairs| => PrintPair(pairs[i].0, pairs[i].1))
  }

  /** The table of the first `n` pairs, a later pair replacing an earlier one of the same key. */
  function TableOf(pairs: seq<Pair>, n: nat): map<string, string>
    requires n <= |pairs|
  {
    if n == 0 then map[] else TableOf(pairs, n - 1)[pairs[n - 1].0 := pairs[n - 1].1]
  }

  lemma {:induction false} TableOfPairs(entries: seq<Option<Pair>>, pairs: seq<Pair>, n: nat)
    requires n <= |pairs| == |entries| && forall i :: 0 <= i < |pairs| ==> entries[i] == Some(pairs[i])
    ensures Table(entries, n) == TableOf(pairs, n)
  {
    if n > 0 {
      TableOfPairs(entries, pairs, n - 1);
    }
  }

  /** Every printed pair is read as that pair. */
  lemma EntriesOfPairs(pairs: seq<Pair>)
    requires forall i :: 0 <= i < |pairs| ==> Storable(pairs[i].0, pairs[i].1)
    ensures forall i :: 0 <= i < |pairs| ==> Entries(PrintPairs(pairs))[i] == Some(pairs[i])
  {
    forall i | 0 <= i < |pairs|
      ensures Entries(PrintPairs(pairs))[i] == Some(pairs[i])
    {
      EntryOfPair(pairs[i].0, pairs[i].1);
    }
  }

  lemma {:induction false} NotBlank(s: string, i: nat)
    requires i < |s| && !IsWhitespace(s[i])
    ensures TrimStart(s) != []
    ensures Trim(s) != []
  {
    if IsWhitespace(s[0]) {
      NotBlank(s[1..], i - 1);
      assert TrimStart(s) == TrimStart(s[1..]);
    }
    NotBlankEnd(TrimStart(s));
  }

  lemma {:induction false} NotBlankEnd(s: string)
    requires s != [] && !IsWhitespace(s[0])
    ensures TrimEnd(s) != []
  {
    if IsWhitespace(s[|s| - 1]) {
      NotBlankEnd(s[..|s| - 1]);
    }
  }

  /** A joined text whose first part holds a colon is not blank. */
  lemma ColonNotBlank(parts: seq<string>, i: nat)
    requires parts != [] && i < |parts[0]| && parts[0][i] == ':'
    ensures Trim(Join(parts, ';')) != []
  {
    var text := Join(parts, ';');
    assert text[i] == parts[0][i];
    NotBlank(text, i);
  }

  lemma PairsSeparate(pairs: seq<Pair>)
    requires forall i :: 0 <= i < |pairs| ==> Storable(pairs[i].0, pairs[i].1)
    ensures forall s :: s in PrintPairs(pairs) ==> ';' !in s
  {
    forall i | 0 <= i < |pairs|
      ensures ';' !in PrintPairs(pairs)[i]
    {
      EntryOfPair(pairs[i].0, pairs[i].1);
    }
  }

  /** A printed list of storable pairs is read back as the table in which the last pair of each key wins. */
  lemma PairsRoundTrip(pairs: seq<Pair>)
    requires pairs != [] && forall i :: 0 <= i < |pairs| ==> Storable(pairs[i].0, pairs[i].1)
    ensures FromStr(Join(PrintPairs(pairs), ';')) == Some(TableOf(pairs, |pairs|))
  {
    var printed := PrintPairs(pairs);
    PairsSeparate(pairs);
    SplitJoin(printed, ';');
    EntriesOfPairs(pairs);
    TableOfPairs(Entries(printed), pairs, |pairs|);
    ColonNotBlank(printed, |pairs[0].0|);
    assert pairs[|pairs| - 1].0 in TableOf(pairs, |pairs|);
    TableRead(Join(printed, ';'), printed, TableOf(pairs, |pairs|));
  }

  lemma TableRead(text: string, parts: seq<string>, table: map<string, string>)
    requires Trim(text) != [] && Split(text, ';') == parts && Table(Entries(parts), |parts|) == table && table != map[]
    ensures FromStr(text) == Some(table)
  {
  }

  /** One pair survives exactly when it is storable. */
  lemma PairRoundTrip(access: string, secret: string)
    ensures FromStr(PrintPair(access, secret)) == Some(map[access := secret]) <==> Storable(access, secret)
  {
    if Storable(access, secret) {
      PairsRoundTrip([(access, secret)]);
      assert PrintPairs([(access, secret)]) == [PrintPair(access, secret)];
      assert TableOf([(access, secret)], 1) == map[access := secret];
    } else if FromStr(PrintPair(access, secret)) == Some(map[access := secret]) {
      ReadPairsStorable(PrintPair(access, secret));
    }
  }
}
