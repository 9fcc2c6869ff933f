/** Tab completion of command names. */
module Completion {
  import opened Prelude
  import opened Painting
  import opened LineEditor

  /** The bytes of a literal. */
  function Text(s: string): (b: Bytes)
    ensures |b| == |s| && AllPrintable(b)
  {
    seq(|s|, i requires 0 <= i < |s| => if ' ' <= s[i] <= '~' then s[i] as int else 63)
  }

  /** The first column of `COMMANDS`. */
  function Commands(): (table: seq<string>)
    ensures forall i :: 0 <= i < |table| ==> 0 < |table[i]| <= 9
  {
    ["help", "fastfetch", "clear", "echo", "uname", "uptime", "mem", "history",
     "whoami", "hostname", "lspci", "net", "browse"]
  }

  function Names(commands: seq<string>): (names: seq<Bytes>)
    ensures forall i :: 0 <= i < |names| ==> AllPrintable(names[i])
  {
    if commands == [] then [] else [Text(commands[0])] + Names(commands[1..])
  }

  /** The names that start with `prefix`, in order. */
  function Matching(names: seq<Bytes>, prefix: Bytes): (r: seq<Bytes>)
    ensures forall i :: 0 <= i < |r| ==> r[i] in names && prefix <= r[i]
    ensures forall n :: n in names && prefix <= n ==> n in r
  {
    if names == [] then []
    else (if prefix <= names[0] then [names[0]] else []) + Matching(names[1..], prefix)
  }

  /** The names keep their order in the table, and each is looked at once. */
  lemma {:induction false} MatchingKeepsOrder(a: seq<Bytes>, b: seq<Bytes>, prefix: Bytes)
    ensures Matching(a + b, prefix) == Matching(a, prefix) + Matching(b, prefix)
    ensures |a| == 1 ==> Matching(a, prefix) == if prefix <= a[0] then [a[0]] else []
    decreases |a|
  {
    if a == [] {
      assert a + b == b;
    } else {
      assert (a + b)[0] == a[0] && (a + b)[1..] == a[1..] + b;
      MatchingKeepsOrder(a[1..], b, prefix);
    }
  }

  /** `zip(..).take(limit).take_while(equal).count()`. */
  function Common(a: Bytes, b: Bytes, limit: nat): (n: nat)
    ensures n <= limit && n <= |a| && n <= |b| && a[..n] == b[..n]
    ensures n == limit || n == |a| || n == |b| || a[n] != b[n]
    ensures forall m :: 0 <= m <= limit && m <= |a| && m <= |b| && a[..m] == b[..m] ==> m <= n
  {
    if limit == 0 || a == [] || b == [] || a[0] != b[0] then 0
    else
      assert forall m :: 0 < m <= |a| && m <= |b| && a[..m] == b[..m] ==> a[1..][..m - 1] == b[1..][..m - 1] by {
        forall m | 0 < m <= |a| && m <= |b| && a[..m] == b[..m] ensures a[1..][..m - 1] == b[1..][..m - 1] {
          assert a[1..][..m - 1] == a[..m][1..];
          assert b[1..][..m - 1] == b[..m][1..];
        }
      }
      var r := Common(a[1..], b[1..], limit - 1);
      assert a[..r + 1] == [a[0]] + a[1..][..r];
      assert b[..r + 1] == [b[0]] + b[1..][..r];
      r + 1
  }

  /** The loop over the other matches. */
  function CommonLen(first: Bytes, others: seq<Bytes>, limit: nat): (n: nat)
    requires limit <= |first|
    ensures n <= limit
    decreases |others|
  {
    if others == [] then limit else CommonLen(first, others[1..], Common(first, others[0], limit))
  }

  /** The result is a prefix of every match, and no longer prefix is. */
  lemma {:induction false} CommonLenIsLongest(first: Bytes, others: seq<Bytes>, limit: nat, m: nat)
    requires m <= limit <= |first|
    ensures m <= CommonLen(first, others, limit) <==> forall i :: 0 <= i < |others| ==> first[..m] <= others[i]
    decreases |others|
  {
    if others != [] {
      var k := Common(first, others[0], limit);
      if first[..m] <= others[0] {
        assert first[..m] == others[0][..m];
        CommonLenIsLongest(first, others[1..], k, m);
        assert forall i :: 0 < i < |others| ==> others[i] == others[1..][i - 1];
      } else {
        assert m <= k ==> first[..m] == first[..k][..m] == others[0][..k][..m];
      }
    }
  }

  function InsertAll(l: Line, text: Bytes): (r: Line)
    requires l.cursor <= |l.text|
    ensures r.cursor <= |r.text|
    decreases |text|
  {
    if text == [] then l else InsertAll(Insert(l, text[0]), text[1..])
  }

  lemma {:induction false} InsertAllKeepsOk(l: Line, text: Bytes)
    requires LineOk(l)
    ensures LineOk(InsertAll(l, text))
    decreases |text|
  {
    if text != [] {
      EditKeepsOk(l, Type(text[0]));
      InsertAllKeepsOk(Insert(l, text[0]), text[1..]);
    }
  }

  lemma {:induction false} InsertAllAppends(l: Line, text: Bytes)
    requires l.cursor == |l.text| && |l.text| + |text| <= MAX_INPUT && AllPrintable(text)
    ensures InsertAll(l, text) == Line(l.text + text, |l.text| + |text|, l.overflow)
    decreases |text|
  {
    if text == [] {
      assert l.text + text == l.text;
    } else {
      var m := Insert(l, text[0]);
      assert m.text == l.text + [text[0]];
      InsertAllAppends(m, text[1..]);
      assert m.text + text[1..] == l.text + text;
    }
  }

  datatype Outcome = Unchanged | Extended(line: Line) | Listed(names: seq<Bytes>)

  /** What Tab decides for a line. */
  function Complete(names: seq<Bytes>, l: Line): Outcome
    requires l.cursor <= |l.text|
  {
    var found := Matching(names, l.text);
    if l.cursor != |l.text| || 32 in l.text || found == [] then Unchanged
    else
      var common := CommonLen(found[0], found[1..], |found[0]|);
      var grown := if |l.text| <= common then InsertAll(l, found[0][|l.text|..common]) else l;
      if |found| == 1 then Extended(Insert(grown, 32))
      else if common == |l.text| then Listed(found)
      else Extended(grown)
  }

  predicate SharedBy(p: Bytes, found: seq<Bytes>) {
    forall i :: 0 <= i < |found| ==> p <= found[i]
  }

  /** `shared` is a prefix of every name, and every such prefix is one of it. */
  ghost predicate LongestShared(shared: Bytes, found: seq<Bytes>) {
    SharedBy(shared, found) && forall p :: SharedBy(p, found) ==> p <= shared
  }

  lemma SharedBySplit(p: Bytes, found: seq<Bytes>)
    requires found != []
    ensures SharedBy(p, found) <==> p <= found[0] && forall i :: 0 <= i < |found[1..]| ==> p <= found[1..][i]
  {
    if p <= found[0] && forall i :: 0 <= i < |found[1..]| ==> p <= found[1..][i] {
      forall i | 0 <= i < |found|
        ensures p <= found[i]
      {
        assert i > 0 ==> found[i] == found[1..][i - 1];
      }
    } else if SharedBy(p, found) {
      forall i | 0 <= i < |found[1..]|
        ensures p <= found[1..][i]
      {
        assert found[1..][i] == found[i + 1];
      }
    }
  }

  /** The loop over the matches finds their longest shared prefix. */
  lemma SharedPrefix(found: seq<Bytes>)
    requires found != []
    ensures LongestShared(found[0][..CommonLen(found[0], found[1..], |found[0]|)], found)
  {
    var first, others := found[0], found[1..];
    var common := CommonLen(first, others, |first|);
    CommonLenIsLongest(first, others, |first|, common);
    SharedBySplit(first[..common], found);
    forall p | SharedBy(p, found)
      ensures p <= first[..common]
    {
      SharedBySplit(p, found);
      assert p == first[..|p|];
      CommonLenIsLongest(first, others, |first|, |p|);
    }
  }

  lemma GrownLine(l: Line, name: Bytes, common: nat)
    requires l.cursor == |l.text| && l.text <= name && |l.text| <= common <= |name| < MAX_INPUT && AllPrintable(name)
    ensures InsertAll(l, name[|l.text|..common]) == Line(name[..common], common, l.overflow)
    ensures Insert(Line(name[..common], common, l.overflow), 32) ==
            Line(name[..common] + [32], common + 1, l.overflow)
    ensures name[..common] == l.text <==> common == |l.text|
  {
    InsertAllAppends(l, name[|l.text|..common]);
    assert l.text + name[|l.text|..common] == name[..common];
  }

  /** Tab acts at the end of a line without a space that starts some name. */
  predicate Completable(names: seq<Bytes>, l: Line) {
    l.cursor == |l.text| && 32 !in l.text && exists n :: n in names && l.text <= n
  }

  /** Otherwise the line stays as it is.  A completed line is the longest prefix
      shared by all the names that it starts, with a space after it when there
      is only one; the names are listed exactly when there are several and the
      line is already that prefix. */
  lemma CompleteIsLongestSharedPrefix(names: seq<Bytes>, l: Line) returns (shared: Bytes)
    requires LineOk(l) && NamesOk(names)
    ensures Complete(names, l) == Unchanged <==> !Completable(names, l)
    ensures var found := Matching(names, l.text);
            Completable(names, l) ==>
              && LongestShared(shared, found)
              && Complete(names, l) ==
                   if |found| == 1 then Extended(Line(shared + [32], |shared| + 1, l.overflow))
                   else if shared == l.text then Listed(found)
                   else Extended(Line(shared, |shared|, l.overflow))
  {
    var found := Matching(names, l.text);
    assert found != [] <==> exists n :: n in names && l.text <= n by {
      assert found != [] ==> found[0] in names && l.text <= found[0];
    }
    shared := [];
    if Completable(names, l) {
      var first := found[0];
      var common := CommonLen(first, found[1..], |first|);
      shared := first[..common];
      SharedPrefix(found);
      assert SharedBy(l.text, found);
      GrownLine(l, first, common);
    }
  }

  predicate NamesOk(names: seq<Bytes>) {
    forall n :: n in names ==> |n| < MAX_INPUT && AllPrintable(n)
  }

  lemma {:induction false} ShortNamesAreOk(commands: seq<string>)
    requires forall i :: 0 <= i < |commands| ==> |commands[i]| < MAX_INPUT
    ensures NamesOk(Names(commands))
    decreases |commands|
  {
    if commands != [] {
      ShortNamesAreOk(commands[1..]);
    }
  }

  /** The command table can be completed from and listed. */
  lemma CommandTableIsOk()
    ensures NamesOk(Names(Commands()))
  {
    ShortNamesAreOk(Commands());
  }
}
