/**
  `LpInfoManager`: a five-level index version -> token -> from -> to -> maker over the accepted rows of
  t_lp_info (rows whose numbers do not parse are skipped before they get here). Names are filed trimmed
  and lower-cased. The index is proved to answer as a last-row-wins search through the rows.
 */
module LpInfos {
  import opened Text

  datatype LpInfo = LpInfo(
    version: int, tokenName: string, fromChainName: string, toChainName: string, makerAddress: string,
    minValueStr: string, maxValueStr: string, bridgeFeeRatioStr: string, isDisabled: int)

  type Makers = map<string, LpInfo>
  type Tos = map<string, Makers>
  type Froms = map<string, Tos>
  type Tokens = map<string, Froms>
  type Index = map<int, Tokens>

  function Trimmed(row: LpInfo): LpInfo {
    row.(tokenName := TrimSpace(row.tokenName), fromChainName := TrimSpace(row.fromChainName),
         toChainName := TrimSpace(row.toChainName), makerAddress := TrimSpace(row.makerAddress))
  }

  /** A version, token and chain pair, with the names as they are filed. */
  datatype Pair = Pair(version: int, token: string, from: string, to: string)

  function PairOf(row: LpInfo): Pair {
    Pair(row.version, Fold(row.tokenName), Fold(row.fromChainName), Fold(row.toChainName))
  }

  function Query(version: int, token: string, from: string, to: string): Pair {
    Pair(version, Fold(token), Fold(from), Fold(to))
  }

  // ---- The rows, searched directly ----

  predicate Filed(row: LpInfo, p: Pair, maker: string) {
    PairOf(row) == p && Fold(row.makerAddress) == maker
  }

  /** The last row filed under the pair and maker. */
  function LastRow(rows: seq<LpInfo>, p: Pair, maker: string): Option<LpInfo> {
    if rows == [] then None
    else
      var n := |rows| - 1;
      if Filed(rows[n], p, maker) then Some(Trimmed(rows[n]))
      else LastRow(rows[..n], p, maker)
  }

  predicate SomeRow(rows: seq<LpInfo>, p: Pair) {
    exists i :: 0 <= i < |rows| && PairOf(rows[i]) == p
  }

  predicate SomeVersion(rows: seq<LpInfo>, version: int) {
    exists i :: 0 <= i < |rows| && rows[i].version == version
  }

  // ---- The index ----

  function MakersAt(idx: Index, p: Pair): Option<Makers> {
    if p.version !in idx then None
    else if p.token !in idx[p.version] then None
    else if p.from !in idx[p.version][p.token] then None
    else if p.to !in idx[p.version][p.token][p.from] then None
    else Some(idx[p.version][p.token][p.from][p.to])
  }

  function Lookup(idx: Index, p: Pair, maker: string): Option<LpInfo> {
    match MakersAt(idx, p)
    case None => None
    case Some(makers) => if maker in makers then Some(makers[maker]) else None
  }

  function Level<K, V>(m: map<K, map<string, V>>, k: K): map<string, V> {
    if k in m then m[k] else map[]
  }

  /** File one row, creating the inner maps that are missing. */
  function Insert(idx: Index, row: LpInfo): Index {
    var p := PairOf(row);
    var versions := Level(idx, p.version);
    var ftInfos := Level(versions, p.token);
    var infos := Level(ftInfos, p.from);
    var makers := Level(infos, p.to);
    var makers' := makers[Fold(row.makerAddress) := Trimmed(row)];
    idx[p.version := versions[p.token := ftInfos[p.from := infos[p.to := makers']]]]
  }

  function IndexOf(rows: seq<LpInfo>): Index {
    if rows == [] then map[] else Insert(IndexOf(rows[..|rows| - 1]), rows[|rows| - 1])
  }

  lemma IndexOfNext(rows: seq<LpInfo>, n: nat)
    requires n < |rows|
    ensures IndexOf(rows[..n + 1]) == Insert(IndexOf(rows[..n]), rows[n])
  {
    assert rows[..n + 1][..n] == rows[..n];
  }

  function TrimmedRows(rows: seq<LpInfo>): seq<LpInfo> {
    seq(|rows|, i requires 0 <= i < |rows| => Trimmed(rows[i]))
  }

  lemma TrimmedNext(rows: seq<LpInfo>, n: nat)
    requires n < |rows|
    ensures TrimmedRows(rows[..n + 1]) == TrimmedRows(rows[..n]) + [Trimmed(rows[n])]
  {}

  lemma MakersAfterInsert(idx: Index, row: LpInfo, p: Pair)
    ensures MakersAt(Insert(idx, row), p) ==
      if p != PairOf(row) then MakersAt(idx, p)
      else
        var old' := MakersAt(idx, p);
        Some((if old'.Some? then old'.value else map[])[Fold(row.makerAddress) := Trimmed(row)])
  {}

  /** The five-level index answers as the search for the last row. */
  lemma {:induction false} LookupIsLastRow(rows: seq<LpInfo>, p: Pair, maker: string)
    ensures Lookup(IndexOf(rows), p, maker) == LastRow(rows, p, maker)
  {
    if rows != [] {
      var n := |rows| - 1;
      LookupIsLastRow(rows[..n], p, maker);
      MakersAfterInsert(IndexOf(rows[..n]), rows[n], p);
    }
  }

  lemma SomeRowLast(rows: seq<LpInfo>, p: Pair)
    requires rows != []
    ensures SomeRow(rows, p) <==> SomeRow(rows[..|rows| - 1], p) || PairOf(rows[|rows| - 1]) == p
    ensures SomeVersion(rows, p.version)
      <==> SomeVersion(rows[..|rows| - 1], p.version) || rows[|rows| - 1].version == p.version
  {}

  /** Levels exist exactly for the versions and pairs that some row has, and every filed token is lower case. */
  lemma {:induction false} LevelsAreRows(rows: seq<LpInfo>, p: Pair)
    ensures MakersAt(IndexOf(rows), p).Some? <==> SomeRow(rows, p)
    ensures p.version in IndexOf(rows) <==> SomeVersion(rows, p.version)
    ensures p.version in IndexOf(rows) && p.token in IndexOf(rows)[p.version] ==> IsLower(p.token)
  {
    if rows != [] {
      var n := |rows| - 1;
      LevelsAreRows(rows[..n], p);
      MakersAfterInsert(IndexOf(rows[..n]), rows[n], p);
      SomeRowLast(rows, p);
      assert IsLower(Fold(rows[n].tokenName));
    }
  }

  // ---- Upper-casing the filed names loses nothing ----

  lemma UpperInjective(s: string, t: string)
    requires IsLower(s) && IsLower(t) && ToUpper(s) == ToUpper(t)
    ensures s == t
  {
    forall i | 0 <= i < |s| ensures s[i] == t[i] {
      assert ToUpper(s)[i] == ToUpper(t)[i];
      assert LowerChar(s[i]) == s[i] && LowerChar(t[i]) == t[i];
    }
  }

  /** The loop body of the loader: walk down the levels, making what is missing, and store the row. */
  method FileRow(idx: Index, row: LpInfo) returns (r: Index)
    ensures r == Insert(idx, row)
  {
    var info := Trimmed(row);
    var versions := if info.version in idx then idx[info.version] else map[];
    var token, from, to := ToLower(info.tokenName), ToLower(info.fromChainName), ToLower(info.toChainName);
    var ftInfos := if token in versions then versions[token] else map[];
    var infos := if from in ftInfos then ftInfos[from] else map[];
    var makers := if to in infos then infos[to] else map[];
    makers := makers[ToLower(info.makerAddress) := info];
    infos := infos[to := makers];
    ftInfos := ftInfos[from := infos];
    versions := versions[token := ftInfos];
    r := idx[info.version := versions];
  }

  method BuildIndex(rows: seq<LpInfo>) returns (idx: Index, all: seq<LpInfo>)
    ensures idx == IndexOf(rows) && all == TrimmedRows(rows)
  {
    idx, all := map[], [];
    for n := 0 to |rows|
      invariant idx == IndexOf(rows[..n])
      invariant all == TrimmedRows(rows[..n])
    {
      idx := FileRow(idx, rows[n]);
      all := all + [Trimmed(rows[n])];
      IndexOfNext(rows, n);
      TrimmedNext(rows, n);
    }
    assert rows[..|rows|] == rows;
  }

  predicate HasPair(tokens: Tokens, token: string, from: string, to: string) {
    token in tokens && from in tokens[token] && to in tokens[token][from]
  }

  predicate NoDuplicates(s: seq<string>) {
    forall i, j :: 0 <= i < j < |s| ==> s[i] != s[j]
  }

  /** The loops of GetTokensByLp over one version; `names` are the filed names behind the answers. */
  method ListTokens(versionInfos: Tokens, from: string, to: string)
    returns (tokens: seq<string>, ghost names: seq<string>)
    ensures |names| == |tokens| && forall i :: 0 <= i < |names| ==> tokens[i] == ToUpper(names[i])
    ensures NoDuplicates(names)
    ensures forall token :: token in names <==> HasPair(versionInfos, token, from, to)
  {
    tokens, names := [], [];
    var todo := versionInfos.Keys;
    while todo != {}
      invariant todo <= versionInfos.Keys
      invariant |names| == |tokens| && forall i :: 0 <= i < |names| ==> tokens[i] == ToUpper(names[i])
      invariant NoDuplicates(names)
      invariant forall token :: token in names <==> HasPair(versionInfos, token, from, to) && token !in todo
      decreases |todo|
    {
      var tokenName := Pick(todo);
      todo := todo - {tokenName};
      var ftInfos := versionInfos[tokenName];
      if from in ftInfos && to in ftInfos[from] {
        tokens := tokens + [ToUpper(tokenName)];
        names := names + [tokenName];
      }
    }
  }

  /** Distinct lower-case names stay distinct in upper case. */
  lemma UpperKeepsDistinct(names: seq<string>, tokens: seq<string>)
    requires |names| == |tokens| && forall i :: 0 <= i < |names| ==> tokens[i] == ToUpper(names[i]) && IsLower(names[i])
    requires NoDuplicates(names)
    ensures NoDuplicates(tokens)
  {
    forall i, j | 0 <= i < j < |tokens| ensures tokens[i] != tokens[j] {
      if tokens[i] == tokens[j] { UpperInjective(names[i], names[j]); }
    }
  }

  // ---- Queries in the rows' own terms ----

  /** The row is for the chain pair, space around names and letter case aside. */
  predicate IsForPair(row: LpInfo, version: int, from: string, to: string) {
    row.version == version && Fold(row.fromChainName) == Fold(from) && Fold(row.toChainName) == Fold(to)
  }

  predicate IsFor(row: LpInfo, version: int, token: string, from: string, to: string) {
    IsForPair(row, version, from, to) && Fold(row.tokenName) == Fold(token)
  }

  predicate Answers(row: LpInfo, version: int, token: string, from: string, to: string, maker: string) {
    IsFor(row, version, token, from, to) && Fold(row.makerAddress) == Fold(maker)
  }

  /** Row i answers the query, no later row does. */
  predicate LastFor(rows: seq<LpInfo>, i: nat, version: int, token: string, from: string, to: string, maker: string) {
    && i < |rows| && Answers(rows[i], version, token, from, to, maker)
    && forall j :: i < j < |rows| ==> !Answers(rows[j], version, token, from, to, maker)
  }

  /** The row as stored: its names trimmed, everything else as it was. */
  predicate StoredAs(row: LpInfo, info: LpInfo) {
    info == row.(tokenName := TrimSpace(row.tokenName), fromChainName := TrimSpace(row.fromChainName),
                 toChainName := TrimSpace(row.toChainName), makerAddress := TrimSpace(row.makerAddress))
  }

  predicate LastFiled(rows: seq<LpInfo>, p: Pair, maker: string, i: nat) {
    i < |rows| && Filed(rows[i], p, maker) && forall j :: i < j < |rows| ==> !Filed(rows[j], p, maker)
  }

  lemma LastFiledNext(rows: seq<LpInfo>, p: Pair, maker: string, i: nat)
    requires rows != [] && !Filed(rows[|rows| - 1], p, maker) && LastFiled(rows[..|rows| - 1], p, maker, i)
    ensures LastFiled(rows, p, maker, i) && rows[i] == rows[..|rows| - 1][i]
  {
    var before := rows[..|rows| - 1];
    forall j | i < j < |rows| ensures !Filed(rows[j], p, maker) {
      assert j < |before| ==> rows[j] == before[j];
    }
  }

  lemma {:induction false} LastRowIsLastFiled(rows: seq<LpInfo>, p: Pair, maker: string) returns (i: nat)
    ensures LastRow(rows, p, maker).Some? ==>
      LastFiled(rows, p, maker, i) && LastRow(rows, p, maker).value == Trimmed(rows[i])
  {
    i := 0;
    if rows != [] {
      var n := |rows| - 1;
      if Filed(rows[n], p, maker) {
        i := n;
      } else {
        i := LastRowIsLastFiled(rows[..n], p, maker);
        if LastRow(rows[..n], p, maker).Some? { LastFiledNext(rows, p, maker, i); }
      }
    }
  }

  lemma {:induction false} NoRowNoneFiled(rows: seq<LpInfo>, p: Pair, maker: string, j: nat)
    requires LastRow(rows, p, maker) == None && j < |rows|
    ensures !Filed(rows[j], p, maker)
  {
    if j < |rows| - 1 { NoRowNoneFiled(rows[..|rows| - 1], p, maker, j); }
  }

  lemma LastRowIsLastFor(rows: seq<LpInfo>, version: int, token: string, from: string, to: string, maker: string)
    ensures var r := LastRow(rows, Query(version, token, from, to), Fold(maker));
      if r.None? then forall j :: 0 <= j < |rows| ==> !Answers(rows[j], version, token, from, to, maker)
      else exists i: nat :: LastFor(rows, i, version, token, from, to, maker) && StoredAs(rows[i], r.value)
  {
    var p := Query(version, token, from, to);
    var i := LastRowIsLastFiled(rows, p, Fold(maker));
    assert forall row :: Answers(row, version, token, from, to, maker) <==> Filed(row, p, Fold(maker));
    var r := LastRow(rows, p, Fold(maker));
    forall j | 0 <= j < |rows| && r == None ensures !Filed(rows[j], p, Fold(maker)) {
      NoRowNoneFiled(rows, p, Fold(maker), j);
    }
    assert r.Some? ==> LastFor(rows, i, version, token, from, to, maker) && StoredAs(rows[i], r.value);
  }

  lemma SomeRowIsFor(rows: seq<LpInfo>, version: int, token: string, from: string, to: string)
    ensures SomeRow(rows, Query(version, token, from, to))
      <==> exists row :: row in rows && IsFor(row, version, token, from, to)
  {
    if SomeRow(rows, Query(version, token, from, to)) {
      var i :| 0 <= i < |rows| && PairOf(rows[i]) == Query(version, token, from, to);
      assert rows[i] in rows && IsFor(rows[i], version, token, from, to);
    }
    if row :| row in rows && IsFor(row, version, token, from, to) {
      var i :| 0 <= i < |rows| && rows[i] == row;
      assert PairOf(rows[i]) == Query(version, token, from, to);
    }
  }

  /** Some row for the pair has this token, written in upper case. */
  ghost predicate Lists(rows: seq<LpInfo>, version: int, from: string, to: string, s: string) {
    exists row :: row in rows && IsForPair(row, version, from, to) && ToUpper(Fold(row.tokenName)) == s
  }

  ghost predicate ListsFiled(rows: seq<LpInfo>, version: int, from: string, to: string, s: string) {
    exists token :: ToUpper(token) == s && SomeRow(rows, Pair(version, token, from, to))
  }

  lemma ListedTokens(rows: seq<LpInfo>, version: int, from: string, to: string, s: string)
    ensures Lists(rows, version, from, to, s) <==> ListsFiled(rows, version, Fold(from), Fold(to), s)
  {
    if ListsFiled(rows, version, Fold(from), Fold(to), s) {
      var token :| ToUpper(token) == s && SomeRow(rows, Pair(version, token, Fold(from), Fold(to)));
      var i :| 0 <= i < |rows| && PairOf(rows[i]) == Pair(version, token, Fold(from), Fold(to));
      assert rows[i] in rows && IsForPair(rows[i], version, from, to) && ToUpper(Fold(rows[i].tokenName)) == s;
    }
    if Lists(rows, version, from, to, s) {
      var row :| row in rows && IsForPair(row, version, from, to) && ToUpper(Fold(row.tokenName)) == s;
      var i :| 0 <= i < |rows| && rows[i] == row;
      assert PairOf(rows[i]) == Pair(version, Fold(row.tokenName), Fold(from), Fold(to));
      assert ToUpper(Fold(row.tokenName)) == s
        && SomeRow(rows, Pair(version, Fold(row.tokenName), Fold(from), Fold(to)));
    }
  }

  class LpInfoManager {
    var lpInfos: Index
    var allLpInfos: seq<LpInfo>
    ghost var rows: seq<LpInfo>

    ghost predicate Valid()
      reads this
    {
      lpInfos == IndexOf(rows) && allLpInfos == TrimmedRows(rows)
    }

    constructor ()
      ensures Valid() && rows == []
    {
      lpInfos, allLpInfos, rows := map[], [], [];
    }

    method LoadAllLpInfo(accepted: seq<LpInfo>)
      modifies this
      ensures Valid() && rows == accepted
    {
      var idx, all := BuildIndex(accepted);
      lpInfos, allLpInfos, rows := idx, all, accepted;
    }

    method GetLpInfo(version: int, token: string, from: string, to: string, maker: string) returns (r: Option<LpInfo>)
      requires Valid()
      ensures r == LastRow(rows, Query(version, token, from, to), Fold(maker))
      ensures r.None? ==> forall j :: 0 <= j < |rows| ==> !Answers(rows[j], version, token, from, to, maker)
      ensures r.Some? ==>
        exists i: nat :: LastFor(rows, i, version, token, from, to, maker) && StoredAs(rows[i], r.value)
    {
      LastRowIsLastFor(rows, version, token, from, to, maker);
      LookupIsLastRow(rows, Query(version, token, from, to), Fold(maker));
      if version in lpInfos {
        var versionInfos := lpInfos[version];
        if Fold(token) in versionInfos {
          var ftInfos := versionInfos[Fold(token)];
          if Fold(from) in ftInfos {
            var infos := ftInfos[Fold(from)];
            if Fold(to) in infos {
              var info := infos[Fold(to)];
              if Fold(maker) in info {
                return Some(info[Fold(maker)]);
              }
            }
          }
        }
      }
      return None;
    }

    /** The makers of a pair: one per maker with a row, each with its last row; none when the pair has no row. */
    method GetLpInfos(version: int, token: string, from: string, to: string) returns (r: Option<Makers>)
      requires Valid()
      ensures r.Some? <==> exists row :: row in rows && IsFor(row, version, token, from, to)
      ensures r.Some? ==> forall maker ::
        (if maker in r.value then Some(r.value[maker]) else None)
          == LastRow(rows, Query(version, token, from, to), maker)
    {
      var p := Query(version, token, from, to);
      LevelsAreRows(rows, p);
      SomeRowIsFor(rows, version, token, from, to);
      forall maker ensures Lookup(lpInfos, p, maker) == LastRow(rows, p, maker) { LookupIsLastRow(rows, p, maker); }
      r := MakersAt(lpInfos, p);
    }

    /** For a known version: each token with a row for the chain pair, once, in upper case, and no others. */
    method GetTokensByLp(version: int, from: string, to: string) returns (tokens: seq<string>, ok: bool)
      requires Valid()
      ensures ok <==> SomeVersion(rows, version)
      ensures NoDuplicates(tokens)
      ensures forall s :: s in tokens <==> Lists(rows, version, from, to, s)
    {
      LevelsAreRows(rows, Pair(version, "", "", ""));
      forall token
        ensures SomeRow(rows, Pair(version, token, Fold(from), Fold(to)))
          <==> version in lpInfos && HasPair(lpInfos[version], token, Fold(from), Fold(to))
        ensures version in lpInfos && token in lpInfos[version] ==> IsLower(token)
      {
        LevelsAreRows(rows, Pair(version, token, Fold(from), Fold(to)));
      }
      forall s ensures Lists(rows, version, from, to, s) <==> ListsFiled(rows, version, Fold(from), Fold(to), s) {
        ListedTokens(rows, version, from, to, s);
      }
      if version !in lpInfos {
        return [], false;
      }
      ghost var names;
      tokens, names := ListTokens(lpInfos[version], Fold(from), Fold(to));
      assert forall i :: 0 <= i < |names| ==> names[i] in names;
      UpperKeepsDistinct(names, tokens);
      ok := true;
      forall token | HasPair(lpInfos[version], token, Fold(from), Fold(to)) ensures ToUpper(token) in tokens {
        var i :| 0 <= i < |names| && names[i] == token;
        assert tokens[i] == ToUpper(token);
      }
    }
  }
}
