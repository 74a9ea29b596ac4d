/** The environment variable that hands the map of named descriptors to the executed program:
    `Client::GetFdMapEnvVar` and the parsing in the constructor of `Client`. */
module ClientEnv {
  import opened Options
  import opened Splitting
  import opened Decimals

  /** The names and numbers in the order in which the hash map is visited. */
  function Tokens(order: seq<(string, int)>): seq<string> {
    if order == [] then [] else [order[0].0, OfInt(order[0].1)] + Tokens(order[1..])
  }

  function EnvValue(order: seq<(string, int)>): string { JoinWith(Tokens(order), ',') }

  /** The map that `absl::StrSplit` fills: pieces are keys and values in turn, a later value of a
      key replaces an earlier one, and a last key without a value has the empty one. */
  function SplitMap(ts: seq<string>, acc: map<string, string>): map<string, string>
    decreases |ts|
  {
    if ts == [] then acc
    else if |ts| == 1 then (if ts[0] in acc then acc else acc[ts[0] := ""])
    else SplitMap(ts[2..], acc[ts[0] := ts[1]])
  }

  /** The descriptors by name, or `None` when a number cannot be parsed and the process ends. */
  function ParseEnv(value: string): Option<map<string, int>> {
    var vars := SplitMap(Pieces(value, ','), map[]);
    if forall n :: n in vars ==> ToInt(vars[n]).Some? then Some(map n | n in vars :: ToInt(vars[n]).value) else None
  }

  /** The map that `order` visits. */
  function MapFrom(order: seq<(string, int)>, acc: map<string, int>): map<string, int>
    decreases |order|
  {
    if order == [] then acc else MapFrom(order[1..], acc[order[0].0 := order[0].1])
  }

  lemma {:induction false} MapFromKeys(order: seq<(string, int)>, acc: map<string, int>)
    ensures acc.Keys <= MapFrom(order, acc).Keys
    ensures forall i :: 0 <= i < |order| ==> order[i].0 in MapFrom(order, acc)
    decreases |order|
  {
    if order != [] {
      MapFromKeys(order[1..], acc[order[0].0 := order[0].1]);
      assert order == [order[0]] + order[1..];
    }
  }

  lemma {:induction false} TokensArePieces(order: seq<(string, int)>)
    requires forall i :: 0 <= i < |order| ==> Piece(order[i].0, ',')
    ensures forall t :: t in Tokens(order) ==> Piece(t, ',')
  {
    if order != [] {
      IntRoundTrip(order[0].1);
      TokensArePieces(order[1..]);
    }
  }

  /** The same names, with numbers written out. */
  ghost predicate Spelt(texts: map<string, string>, m: map<string, int>) {
    texts.Keys == m.Keys && forall n :: n in m ==> texts[n] == OfInt(m[n])
  }

  lemma {:induction false} SplitMapSpells(order: seq<(string, int)>, texts: map<string, string>, acc: map<string, int>)
    requires Spelt(texts, acc)
    ensures Spelt(SplitMap(Tokens(order), texts), MapFrom(order, acc))
    decreases |order|
  {
    if order != [] {
      var (name, fd) := order[0];
      assert Tokens(order)[2..] == Tokens(order[1..]);
      SplitMapSpells(order[1..], texts[name := OfInt(fd)], acc[name := fd]);
    }
  }

  lemma SpeltParses(texts: map<string, string>, m: map<string, int>)
    requires Spelt(texts, m)
    ensures forall n :: n in texts ==> ToInt(texts[n]) == Some(m[n])
  {
    forall n | n in texts ensures ToInt(texts[n]) == Some(m[n]) {
      IntRoundTrip(m[n]);
    }
  }

  lemma {:induction false} SplitKeysArePieces(ts: seq<string>, acc: map<string, string>)
    requires forall t :: t in ts ==> Piece(t, ',')
    requires forall n :: n in acc ==> Piece(n, ',')
    ensures forall n :: n in SplitMap(ts, acc) ==> Piece(n, ',')
    decreases |ts|
  {
    if |ts| > 1 {
      assert ts[0] in ts;
      SplitKeysArePieces(ts[2..], acc[ts[0] := ts[1]]);
    }
  }

  lemma {:induction false} CleanNamesSurvive(order: seq<(string, int)>)
    requires forall i :: 0 <= i < |order| ==> Piece(order[i].0, ',')
    ensures ParseEnv(EnvValue(order)) == Some(MapFrom(order, map[]))
  {
    var m := MapFrom(order, map[]);
    TokensArePieces(order);
    PiecesJoin(Tokens(order), ',');
    SplitMapSpells(order, map[], map[]);
    var texts := SplitMap(Tokens(order), map[]);
    SpeltParses(texts, m);
    assert (map n | n in texts :: ToInt(texts[n]).value) == m;
  }

  lemma {:induction false} ParsedNamesArePieces(value: string)
    ensures ParseEnv(value).Some? ==> forall n :: n in ParseEnv(value).value ==> Piece(n, ',')
  {
    PiecesArePieces(value, ',');
    SplitKeysArePieces(Pieces(value, ','), map[]);
  }

  /** The map survives the trip through the environment exactly when no name is empty or holds
      a comma, whatever the order in which the map is visited. */
  lemma {:induction false} EnvRoundTrip(order: seq<(string, int)>)
    ensures ParseEnv(EnvValue(order)) == Some(MapFrom(order, map[]))
            <==> forall i :: 0 <= i < |order| ==> Piece(order[i].0, ',')
  {
    if forall i :: 0 <= i < |order| ==> Piece(order[i].0, ',') {
      CleanNamesSurvive(order);
    } else {
      ParsedNamesArePieces(EnvValue(order));
      MapFromKeys(order, map[]);
    }
  }

  lemma {:induction false} LastNameKept(ts: seq<string>, acc: map<string, string>)
    requires |ts| % 2 == 1 && (forall i :: 0 <= i < |ts| - 1 ==> ts[i] != ts[|ts| - 1]) && ts[|ts| - 1] !in acc
    ensures var name := ts[|ts| - 1]; name in SplitMap(ts, acc) && SplitMap(ts, acc)[name] == ""
    decreases |ts|
  {
    if |ts| > 1 {
      LastNameKept(ts[2..], acc[ts[0] := ts[1]]);
    }
  }

  /** A value that ends with a new name and no number for it is not accepted. */
  lemma OddIsRejected(value: string)
    requires var ts := Pieces(value, ','); |ts| % 2 == 1 && forall i :: 0 <= i < |ts| - 1 ==> ts[i] != ts[|ts| - 1]
    ensures ParseEnv(value) == None
  {
    var ts := Pieces(value, ',');
    LastNameKept(ts, map[]);
    assert ToInt("") == None;
  }
}
