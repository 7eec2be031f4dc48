/**
 * The update of the token registry: which wrapped assets the chains know and the configuration does not
 * (tokenRegistry/src/scripts/foreignAssets.ts), and their merge into the configuration
 * (tokenRegistry/src/scripts/updateForeignAssetConfig.ts).
 */
module RegistryUpdate {
  import opened Prelude
  import opened ConfigMerge
  import Amounts

  type Chain = string

  type Token = string

  datatype Foreign = Foreign(address: string, decimals: nat)

  /** The configuration of a token: its other properties, and its foreign assets if it has any listed. */
  datatype Entry = Entry(meta: map<string, Tree>, foreign: Option<map<Chain, Foreign>>)
  {
    function Cache(): map<Chain, Foreign> {
      if foreign.Some? then foreign.value else map[]
    }
  }

  type Config = map<Chain, map<Token, Entry>>

  /** What a run suggests: under each chain and token, the foreign assets to add. */
  type Suggestions = map<Chain, map<Token, map<Chain, Foreign>>>

  /** A wrapped asset that a chain answers for a token; asking for its decimals may throw. */
  datatype Wrapped = Wrapped(address: string, decimals: Option<nat>)

  /** The answers of the chains, fixed: the tokens whose address parses, and their wrapped assets. */
  datatype Ledger = Ledger(parses: (Chain, Token) -> bool, wrapped: (Chain, Token, Chain) -> Option<Wrapped>)

  const SUPPORTED: seq<Chain> :=
    ["Ethereum", "Polygon", "Celo", "Moonbeam", "Avalanche", "Bsc", "Optimism", "Arbitrum", "Solana"]

  /** The wrapped asset looked at on chain `f`: only on another, supported chain, and with an address. */
  function Asset(ledger: Ledger, home: Chain, token: Token, f: Chain): Option<Wrapped> {
    if f == home || f !in SUPPORTED then None
    else
      var wrapped := ledger.wrapped(home, token, f);
      if wrapped.Some? && wrapped.value.address == "" then None else wrapped
  }

  /** The check of chain `f` throws: its decimals cannot be read, or the configuration says something else. */
  predicate Clashes(ledger: Ledger, home: Chain, token: Token, cache: map<Chain, Foreign>, f: Chain) {
    var asset := Asset(ledger, home, token, f);
    asset.Some? &&
    (asset.value.decimals.None? ||
     (f in cache && cache[f] != Foreign(asset.value.address, asset.value.decimals.value)))
  }

  /** The wrapped asset is known to chain `f` and not to the configuration. */
  predicate IsMissing(ledger: Ledger, home: Chain, token: Token, cache: map<Chain, Foreign>, f: Chain) {
    f !in cache && Asset(ledger, home, token, f).Some?
  }

  /** The chains that the script asks for wrapped assets. */
  predicate IsSupported(f: Chain) {
    || f == "Ethereum" || f == "Polygon" || f == "Celo" || f == "Moonbeam" || f == "Avalanche"
    || f == "Bsc" || f == "Optimism" || f == "Arbitrum" || f == "Solana"
  }

  /** Chain `f` names a wrapped asset for the token: another supported chain, with an address that is not empty. */
  predicate IsNamed(ledger: Ledger, home: Chain, token: Token, f: Chain) {
    && f != home && IsSupported(f)
    && ledger.wrapped(home, token, f).Some? && ledger.wrapped(home, token, f).value.address != ""
  }

  /**
   * What is missing of a token is all that the chains name and the configuration does not have, with the address and
   * the decimals answered; its check clashes exactly when some chain cannot tell the decimals of what it names, or
   * names something else than the configuration has.
   */
  lemma MissingIs(ledger: Ledger, chains: seq<Chain>, home: Chain, token: Token, cache: map<Chain, Foreign>)
    ensures var missing := Missing(ledger, chains, home, token, cache);
            !AnyClash(ledger, chains, home, token, cache) ==>
              forall f ::
                && (f in missing <==> f in chains && f !in cache && IsNamed(ledger, home, token, f))
                && (f in missing ==>
                      var wrapped := ledger.wrapped(home, token, f).value;
                      wrapped.decimals.Some? && missing[f] == Foreign(wrapped.address, wrapped.decimals.value))
    ensures AnyClash(ledger, chains, home, token, cache)
            <==> exists f | f in chains ::
                   && IsNamed(ledger, home, token, f)
                   && (var wrapped := ledger.wrapped(home, token, f).value;
                       || wrapped.decimals.None?
                       || (f in cache && (cache[f].address != wrapped.address
                                          || cache[f].decimals != wrapped.decimals.value)))
  {
    SupportedIs();
    forall f | f in chains
      ensures Clashes(ledger, home, token, cache, f)
              <==> && IsNamed(ledger, home, token, f)
                   && (var wrapped := ledger.wrapped(home, token, f).value;
                       || wrapped.decimals.None?
                       || (f in cache && (cache[f].address != wrapped.address
                                          || cache[f].decimals != wrapped.decimals.value)))
    {
    }
    assert forall f | f in chains && IsMissing(ledger, home, token, cache, f) ::
        !Clashes(ledger, home, token, cache, f) ==> Asset(ledger, home, token, f).value.decimals.Some?;
  }

  lemma SupportedIs()
    ensures forall f :: f in SUPPORTED <==> IsSupported(f)
  {
  }

  predicate AnyClash(ledger: Ledger, chains: seq<Chain>, home: Chain, token: Token, cache: map<Chain, Foreign>) {
    exists f | f in chains :: Clashes(ledger, home, token, cache, f)
  }

  /** What is to be added for a wrapped asset. */
  function Found(wrapped: Wrapped): Foreign {
    Foreign(wrapped.address, if wrapped.decimals.Some? then wrapped.decimals.value else 0)
  }

  /** The foreign assets that are missing for one token. */
  function Missing(ledger: Ledger, chains: seq<Chain>, home: Chain, token: Token, cache: map<Chain, Foreign>)
      : map<Chain, Foreign> {
    map f | f in chains && IsMissing(ledger, home, token, cache, f) :: Found(Asset(ledger, home, token, f).value)
  }

  /** `getForeignAssetsData`; an exception when the check of some chain throws. */
  method GetForeignAssetsData(ledger: Ledger, chains: seq<Chain>, home: Chain, token: Token,
      cache: map<Chain, Foreign>) returns (result: Result<map<Chain, Foreign>, ()>)
    ensures result.Err? <==> AnyClash(ledger, chains, home, token, cache)
    ensures result.Ok? ==> result.value == Missing(ledger, chains, home, token, cache)
  {
    var updates: map<Chain, Foreign> := map[];
    for i := 0 to |chains|
      invariant forall j | 0 <= j < i :: !Clashes(ledger, home, token, cache, chains[j])
      invariant forall f | f in updates :: f in chains[..i] && IsMissing(ledger, home, token, cache, f) &&
                                           updates[f] == Found(Asset(ledger, home, token, f).value)
      invariant forall j | 0 <= j < i && IsMissing(ledger, home, token, cache, chains[j]) :: chains[j] in updates
    {
      var f := chains[i];
      if f != home && f in SUPPORTED {
        var asset := ledger.wrapped(home, token, f);
        if asset.Some? && asset.value.address != "" {
          if asset.value.decimals.None? {
            assert Clashes(ledger, home, token, cache, f);
            return Err(());
          }
          var found := Foreign(asset.value.address, asset.value.decimals.value);
          if f in cache {
            if cache[f] != found {
              assert Clashes(ledger, home, token, cache, f);
              return Err(());
            }
          } else {
            updates := updates[f := found];
          }
        }
      }
    }
    return Ok(updates);
  }

  /** What a run suggests for one token; a token whose check throws is left out. */
  function Suggested(ledger: Ledger, chains: seq<Chain>, home: Chain, token: Token, entry: Entry): map<Chain, Foreign> {
    if home in SUPPORTED && !AnyClash(ledger, chains, home, token, entry.Cache())
    then Missing(ledger, chains, home, token, entry.Cache())
    else map[]
  }

  /** What a run suggests for the tokens of one chain, and for all chains; none is listed with nothing to add. */
  function SuggestedFor(ledger: Ledger, chains: seq<Chain>, home: Chain, entries: map<Token, Entry>)
      : map<Token, map<Chain, Foreign>> {
    map t | t in entries && Suggested(ledger, chains, home, t, entries[t]) != map[] ::
      Suggested(ledger, chains, home, t, entries[t])
  }

  function Wanted(ledger: Ledger, chains: seq<Chain>, config: Config): Suggestions {
    map h | h in config && AnySuggested(ledger, chains, h, config[h]) :: SuggestedFor(ledger, chains, h, config[h])
  }

  predicate AnySuggested(ledger: Ledger, chains: seq<Chain>, home: Chain, entries: map<Token, Entry>) {
    SuggestedFor(ledger, chains, home, entries) != map[]
  }

  /** The foreign assets in a collection of suggestions. */
  ghost function Keys(s: Suggestions): set<(Chain, Token, Chain)> {
    set h, t, f | h in s && t in s[h] && f in s[h][t] :: (h, t, f)
  }

  /** An address that does not parse, on a supported chain, makes the whole run reject. */
  predicate Rejects(ledger: Ledger, home: Chain, entries: map<Token, Entry>) {
    home in SUPPORTED && exists token | token in entries :: !ledger.parses(home, token)
  }

  /**
   * A run suggests exactly the assets that are missing for the tokens of supported chains whose check does not clash.
   */
  lemma WantedIs(ledger: Ledger, chains: seq<Chain>, config: Config, h: Chain, t: Token, f: Chain)
    ensures var wanted := Wanted(ledger, chains, config);
            h in wanted && t in wanted[h] && f in wanted[h][t]
            <==> && h in config && t in config[h] && IsSupported(h)
                 && !AnyClash(ledger, chains, h, t, config[h][t].Cache())
                 && f in chains && f !in config[h][t].Cache() && IsNamed(ledger, h, t, f)
  {
    SupportedIs();
    if h in config && t in config[h] {
      MissingIs(ledger, chains, h, t, config[h][t].Cache());
      var suggested := Suggested(ledger, chains, h, t, config[h][t]);
      assert f in suggested ==> suggested != map[];
      assert t in SuggestedFor(ledger, chains, h, config[h]) ==> SuggestedFor(ledger, chains, h, config[h]) != map[];
    }
  }

  /** And it rejects exactly when a token of some supported chain has an address that does not parse. */
  lemma RejectsIff(ledger: Ledger, home: Chain, entries: map<Token, Entry>)
    ensures Rejects(ledger, home, entries)
            <==> IsSupported(home) && exists token | token in entries :: !ledger.parses(home, token)
  {
    SupportedIs();
  }

  datatype MaybeUpdate = MaybeUpdate(chain: Chain, token: Token, updates: map<Chain, Foreign>)

  /** The suggestions with the updates of one token spread over what they hold for it. */
  function Add(s: Suggestions, m: MaybeUpdate): Suggestions {
    if m.updates == map[] then s
    else
      var perChain := if m.chain in s then s[m.chain] else map[];
      var before := if m.token in perChain then perChain[m.token] else map[];
      s[m.chain := perChain[m.token := before + m.updates]]
  }

  /** Updates of one token that come twice are both kept, the later ones over the earlier. */
  lemma AddSpreads(s: Suggestions, m: MaybeUpdate, n: MaybeUpdate)
    requires n.chain == m.chain && n.token == m.token && m.updates != map[]
    ensures var r := Add(Add(s, m), n);
            var before := if m.chain in s && m.token in s[m.chain] then s[m.chain][m.token] else map[];
            && m.chain in r && m.token in r[m.chain] && r[m.chain][m.token] == before + m.updates + n.updates
            && (forall h | h in r && h != m.chain :: h in s && r[h] == s[h])
            && (forall t | t in r[m.chain] && t != m.token ::
                  m.chain in s && t in s[m.chain] && r[m.chain][t] == s[m.chain][t])
  {
    var before := if m.chain in s && m.token in s[m.chain] then s[m.chain][m.token] else map[];
    assert n.updates == map[] ==> before + m.updates + n.updates == before + m.updates;
  }

  function Fold(maybes: seq<MaybeUpdate>): Suggestions {
    if maybes == [] then map[] else Add(Fold(maybes[..|maybes| - 1]), maybes[|maybes| - 1])
  }

  function Count(maybes: seq<MaybeUpdate>): nat {
    if maybes == [] then 0 else Count(maybes[..|maybes| - 1]) + |maybes[|maybes| - 1].updates|
  }

  predicate Holds(s: Suggestions, h: Chain, t: Token) {
    h in s && t in s[h]
  }

  /** No token is listed twice. */
  predicate Distinct(maybes: seq<MaybeUpdate>) {
    maybes == [] ||
    (var m := maybes[|maybes| - 1];
     Distinct(maybes[..|maybes| - 1]) && !Holds(Fold(maybes[..|maybes| - 1]), m.chain, m.token))
  }

  lemma FoldExtend(maybes: seq<MaybeUpdate>, m: MaybeUpdate)
    ensures Fold(maybes + [m]) == Add(Fold(maybes), m)
    ensures Count(maybes + [m]) == Count(maybes) + |m.updates|
    ensures Distinct(maybes + [m]) <==> Distinct(maybes) && !Holds(Fold(maybes), m.chain, m.token)
  {
    assert (maybes + [m])[..|maybes|] == maybes;
  }

  lemma AddAside(a: Suggestions, b: Suggestions, m: MaybeUpdate)
    requires m.chain !in a
    ensures Add(a + b, m) == a + Add(b, m)
    ensures Holds(a + b, m.chain, m.token) <==> Holds(b, m.chain, m.token)
    ensures (forall h | h in b :: h == m.chain) ==> forall h | h in Add(b, m) :: h == m.chain
  {
  }

  /** The updates of another chain are added on the side. */
  lemma {:induction false} FoldConcat(a: seq<MaybeUpdate>, b: seq<MaybeUpdate>, home: Chain)
    requires forall i | 0 <= i < |b| :: b[i].chain == home
    requires home !in Fold(a)
    ensures Fold(a + b) == Fold(a) + Fold(b)
    ensures forall h | h in Fold(b) :: h == home
    ensures Distinct(a) && Distinct(b) ==> Distinct(a + b)
    decreases |b|
  {
    if b == [] {
      assert a + b == a;
    } else {
      var most, m := b[..|b| - 1], b[|b| - 1];
      FoldConcat(a, most, home);
      FoldConcatNext(a, most, m);
      assert a + b == a + (most + [m]) && b == most + [m];
    }
  }

  lemma FoldConcatNext(a: seq<MaybeUpdate>, most: seq<MaybeUpdate>, m: MaybeUpdate)
    requires m.chain !in Fold(a) && Fold(a + most) == Fold(a) + Fold(most)
    requires forall h | h in Fold(most) :: h == m.chain
    requires Distinct(a) && Distinct(most) ==> Distinct(a + most)
    ensures Fold(a + (most + [m])) == Fold(a) + Fold(most + [m])
    ensures forall h | h in Fold(most + [m]) :: h == m.chain
    ensures Distinct(a) && Distinct(most + [m]) ==> Distinct(a + (most + [m]))
  {
    assert a + (most + [m]) == (a + most) + [m];
    FoldExtend(a + most, m);
    FoldExtend(most, m);
    AddAside(Fold(a), Fold(most), m);
  }

  ghost function Tag(m: MaybeUpdate): set<(Chain, Token, Chain)> {
    set f | f in m.updates :: (m.chain, m.token, f)
  }

  lemma {:induction false} TagSize(m: MaybeUpdate)
    ensures |Tag(m)| == |m.updates|
    decreases m.updates.Keys
  {
    if m.updates == map[] {
      assert Tag(m) == {};
    } else {
      var f :| f in m.updates;
      var rest := MaybeUpdate(m.chain, m.token, m.updates - {f});
      TagSize(rest);
      assert Tag(m) == Tag(rest) + {(m.chain, m.token, f)};
    }
  }

  lemma AddKeys(s: Suggestions, m: MaybeUpdate)
    requires !Holds(s, m.chain, m.token)
    ensures Keys(Add(s, m)) == Keys(s) + Tag(m) && Keys(s) !! Tag(m)
  {
    var r := Add(s, m);
    forall h, t | Holds(r, h, t)
      ensures (Holds(s, h, t) && r[h][t] == s[h][t]) || (h == m.chain && t == m.token && r[h][t] == m.updates)
    {
    }
    forall h, t | Holds(s, h, t)
      ensures Holds(r, h, t) && r[h][t] == s[h][t]
    {
    }
    assert m.updates != map[] ==> Holds(r, m.chain, m.token) && r[m.chain][m.token] == m.updates;
  }

  /** The count is the number of foreign assets suggested. */
  lemma {:induction false} CountIsSize(maybes: seq<MaybeUpdate>)
    requires Distinct(maybes)
    ensures Count(maybes) == |Keys(Fold(maybes))|
    decreases |maybes|
  {
    if maybes == [] {
      assert Keys(Fold(maybes)) == {};
    } else {
      var most, m := maybes[..|maybes| - 1], maybes[|maybes| - 1];
      CountIsSize(most);
      TagSize(m);
      AddKeys(Fold(most), m);
    }
  }

  /** `getForeignAssetsDataForChain`: a token at a time. */
  method GetForeignAssetsDataForChain(ledger: Ledger, chains: seq<Chain>, home: Chain, entries: map<Token, Entry>)
      returns (result: Result<seq<MaybeUpdate>, ()>)
    ensures result.Err? <==> Rejects(ledger, home, entries)
    ensures result.Ok? ==> Distinct(result.value) && forall i | 0 <= i < |result.value| :: result.value[i].chain == home
    ensures result.Ok? ==> Fold(result.value) == OneHome(home, SuggestedFor(ledger, chains, home, entries))
  {
    var maybes: seq<MaybeUpdate> := [];
    var tokens := entries.Keys;
    ghost var done: map<Token, Entry> := map[];
    while tokens != {}
      invariant tokens <= entries.Keys && done == entries - tokens
      invariant Lists(maybes, ledger, chains, home, done)
      invariant home in SUPPORTED ==> forall t | t in done :: ledger.parses(home, t)
    {
      var token :| token in tokens;
      if home in SUPPORTED {
        if !ledger.parses(home, token) {
          return Err(());
        }
        var updates := GetForeignAssetsData(ledger, chains, home, token, entries[token].Cache());
        ListsNext(maybes, ledger, chains, home, done, token, entries[token], updates);
        if updates.Ok? {
          maybes := maybes + [MaybeUpdate(home, token, updates.value)];
        }
      } else {
        ListsNext(maybes, ledger, chains, home, done, token, entries[token], Err(()));
      }
      done := done[token := entries[token]];
      tokens := tokens - {token};
    }
    assert entries - tokens == entries;
    return Ok(maybes);
  }

  /** The updates listed for one chain are those suggested for the tokens that are done. */
  ghost predicate Lists(
    maybes: seq<MaybeUpdate>, ledger: Ledger, chains: seq<Chain>, home: Chain, done: map<Token, Entry>)
  {
    && Distinct(maybes)
    && (forall i | 0 <= i < |maybes| :: maybes[i].chain == home)
    && Fold(maybes) == OneHome(home, SuggestedFor(ledger, chains, home, done))
  }

  /** The check of one token gave these updates; on an unsupported chain there is none. */
  ghost predicate Checked(ledger: Ledger, chains: seq<Chain>, home: Chain, token: Token, entry: Entry,
    updates: Result<map<Chain, Foreign>, ()>)
  {
    && (updates.Err? <==> home !in SUPPORTED || AnyClash(ledger, chains, home, token, entry.Cache()))
    && (updates.Ok? ==> updates.value == Missing(ledger, chains, home, token, entry.Cache()))
  }

  lemma ListsNext(maybes: seq<MaybeUpdate>, ledger: Ledger, chains: seq<Chain>, home: Chain, done: map<Token, Entry>,
    token: Token, entry: Entry, updates: Result<map<Chain, Foreign>, ()>)
    requires Lists(maybes, ledger, chains, home, done) && token !in done
    requires Checked(ledger, chains, home, token, entry, updates)
    ensures Lists(if updates.Ok? then maybes + [MaybeUpdate(home, token, updates.value)] else maybes,
                  ledger, chains, home, done[token := entry])
  {
    var m := MaybeUpdate(home, token, Suggested(ledger, chains, home, token, entry));
    SuggestedNext(ledger, chains, home, done, token, entry);
    FoldExtend(maybes, m);
  }

  function OneHome(home: Chain, tokens: map<Token, map<Chain, Foreign>>): Suggestions {
    if tokens == map[] then map[] else map[home := tokens]
  }

  /** What `SuggestedFor` is for one token more. */
  lemma SuggestedMore(
    ledger: Ledger, chains: seq<Chain>, home: Chain, done: map<Token, Entry>, token: Token, entry: Entry)
    requires token !in done
    ensures var now := Suggested(ledger, chains, home, token, entry);
            var tokens := SuggestedFor(ledger, chains, home, done);
            && SuggestedFor(ledger, chains, home, done[token := entry]) ==
                 (if now == map[] then tokens else tokens[token := now])
            && token !in tokens
  {
    var now := Suggested(ledger, chains, home, token, entry);
    var tokens := SuggestedFor(ledger, chains, home, done);
    var after := SuggestedFor(ledger, chains, home, done[token := entry]);
    var expected := if now == map[] then tokens else tokens[token := now];
    forall t ensures t in after <==> t in expected {
      if t != token && t in done {
        assert done[token := entry][t] == done[t];
      }
    }
    forall t | t in after ensures after[t] == expected[t] {
      if t != token {
        assert done[token := entry][t] == done[t];
      }
    }
  }

  lemma AddToOneHome(home: Chain, tokens: map<Token, map<Chain, Foreign>>, token: Token, now: map<Chain, Foreign>)
    requires token !in tokens
    ensures Add(OneHome(home, tokens), MaybeUpdate(home, token, now)) ==
            OneHome(home, if now == map[] then tokens else tokens[token := now])
    ensures !Holds(OneHome(home, tokens), home, token)
  {
    assert map[] + now == now;
  }

  lemma SuggestedNext(
    ledger: Ledger, chains: seq<Chain>, home: Chain, done: map<Token, Entry>, token: Token, entry: Entry)
    requires token !in done
    ensures var now := Suggested(ledger, chains, home, token, entry);
            var before := OneHome(home, SuggestedFor(ledger, chains, home, done));
            OneHome(home, SuggestedFor(ledger, chains, home, done[token := entry])) ==
              Add(before, MaybeUpdate(home, token, now)) && !Holds(before, home, token)
  {
    SuggestedMore(ledger, chains, home, done, token, entry);
    AddToOneHome(home, SuggestedFor(ledger, chains, home, done), token, Suggested(ledger, chains, home, token, entry));
  }

  lemma WantedHolds(ledger: Ledger, chains: seq<Chain>, config: Config, h: Chain)
    ensures h in Wanted(ledger, chains, config) <==> h in config && AnySuggested(ledger, chains, h, config[h])
  {
  }

  lemma WantedKeys(ledger: Ledger, chains: seq<Chain>, done: Config, home: Chain, entries: map<Token, Entry>)
    requires home !in done
    ensures var after := Wanted(ledger, chains, done[home := entries]);
            after.Keys == Wanted(ledger, chains, done).Keys +
                          if AnySuggested(ledger, chains, home, entries) then {home} else {}
  {
    var next := done[home := entries];
    var before, after := Wanted(ledger, chains, done).Keys, Wanted(ledger, chains, next).Keys;
    var more := if AnySuggested(ledger, chains, home, entries) then {home} else {};
    forall h ensures h in after <==> h in before + more {
      WantedHolds(ledger, chains, next, h);
      WantedHolds(ledger, chains, done, h);
    }
  }

  lemma WantedValue(ledger: Ledger, chains: seq<Chain>, done: Config, home: Chain, entries: map<Token, Entry>, h: Chain)
    requires home !in done && h in Wanted(ledger, chains, done[home := entries])
    ensures var after := Wanted(ledger, chains, done[home := entries]);
            if h == home then after[h] == SuggestedFor(ledger, chains, home, entries)
            else h in Wanted(ledger, chains, done) && after[h] == Wanted(ledger, chains, done)[h]
  {
    WantedKeys(ledger, chains, done, home, entries);
    if h == home {
      assert done[home := entries][h] == entries;
    } else {
      assert done[home := entries][h] == done[h];
    }
  }

  lemma WantedNext(ledger: Ledger, chains: seq<Chain>, done: Config, home: Chain, entries: map<Token, Entry>)
    requires home !in done
    ensures Wanted(ledger, chains, done[home := entries]) ==
            Wanted(ledger, chains, done) + OneHome(home, SuggestedFor(ledger, chains, home, entries))
    ensures home !in Wanted(ledger, chains, done)
  {
    WantedKeys(ledger, chains, done, home, entries);
    var before, after := Wanted(ledger, chains, done), Wanted(ledger, chains, done[home := entries]);
    var side := OneHome(home, SuggestedFor(ledger, chains, home, entries));
    forall h | h in after
      ensures after[h] == if h in side then side[h] else before[h]
    {
      WantedValue(ledger, chains, done, home, entries, h);
    }
    MapPlus(before, side, after);
  }

  lemma MapPlus<K, V>(a: map<K, V>, b: map<K, V>, c: map<K, V>)
    requires c.Keys == a.Keys + b.Keys
    requires forall k | k in c :: c[k] == if k in b then b[k] else a[k]
    ensures c == a + b
  {
  }

  /** The maybe-updates of all chains, flattened. */
  method CollectUpdates(ledger: Ledger, chains: seq<Chain>, config: Config)
    returns (result: Result<seq<MaybeUpdate>, ()>)
    ensures result.Err? <==> exists h | h in config :: Rejects(ledger, h, config[h])
    ensures result.Ok? ==> Distinct(result.value) && Fold(result.value) == Wanted(ledger, chains, config)
  {
    var maybes: seq<MaybeUpdate> := [];
    var homes := config.Keys;
    while homes != {}
      invariant homes <= config.Keys
      invariant Distinct(maybes) && Fold(maybes) == Wanted(ledger, chains, config - homes)
      invariant forall h | h in config.Keys - homes :: !Rejects(ledger, h, config[h])
    {
      var home :| home in homes;
      var part := GetForeignAssetsDataForChain(ledger, chains, home, config[home]);
      if part.Err? {
        return Err(());
      }
      WantedNext(ledger, chains, config - homes, home, config[home]);
      FoldConcat(maybes, part.value, home);
      assert config - (homes - {home}) == (config - homes)[home := config[home]];
      maybes := maybes + part.value;
      homes := homes - {home};
    }
    assert config - homes == config;
    return Ok(maybes);
  }

  /** `getSuggestedUpdates`: the updates counted and grouped again, all of them or an exception. */
  method GetSuggestedUpdates(ledger: Ledger, chains: seq<Chain>, config: Config)
      returns (result: Result<(nat, Suggestions), ()>)
    ensures result.Err? <==> exists h | h in config :: Rejects(ledger, h, config[h])
    ensures result.Ok? ==> result.value.1 == Wanted(ledger, chains, config)
    ensures result.Ok? ==> result.value.0 == |Keys(Wanted(ledger, chains, config))|
  {
    var collected := CollectUpdates(ledger, chains, config);
    if collected.Err? {
      return Err(());
    }
    var maybes := collected.value;
    var suggested: Suggestions, count := map[], 0;
    for i := 0 to |maybes|
      invariant count == Count(maybes[..i]) && suggested == Fold(maybes[..i])
    {
      var m := maybes[i];
      assert maybes[..i + 1] == maybes[..i] + [m];
      FoldExtend(maybes[..i], m);
      if |m.updates| != 0 {
        count := count + |m.updates|;
        var perChain := if m.chain in suggested then suggested[m.chain] else map[];
        var before := if m.token in perChain then perChain[m.token] else map[];
        suggested := suggested[m.chain := perChain[m.token := before + m.updates]];
      }
    }
    assert maybes[..|maybes|] == maybes;
    CountIsSize(maybes);
    return Ok((count, suggested));
  }

  // ---------- Merging the suggestions into the configuration ----------

  function AddForeign(entry: Entry, adds: map<Chain, Foreign>): Entry {
    if adds == map[] then entry else entry.(foreign := Some(entry.Cache() + adds))
  }

  function UpdatedFor(entries: map<Token, Entry>, adds: map<Token, map<Chain, Foreign>>): map<Token, Entry> {
    map t | t in entries :: AddForeign(entries[t], if t in adds then adds[t] else map[])
  }

  /** The configuration with foreign assets added to its tokens. */
  function Updated(config: Config, s: Suggestions): Config {
    map h | h in config :: UpdatedFor(config[h], if h in s then s[h] else map[])
  }

  const FOREIGN_ASSETS := "foreignAssets"

  function ForeignTree(f: Foreign): Tree {
    Object(false, map["address" := Scalar(f.address, f.address != ""),
                      "decimals" := Scalar(Amounts.Print(f.decimals), f.decimals != 0)])
  }

  function ForeignsTree(fs: map<Chain, Foreign>): Tree {
    Object(false, map f | f in fs :: ForeignTree(fs[f]))
  }

  function EntryTree(e: Entry): Tree {
    Object(false, if e.foreign.Some? then e.meta[FOREIGN_ASSETS := ForeignsTree(e.foreign.value)] else e.meta)
  }

  function EntriesTree(es: map<Token, Entry>): Tree {
    Object(false, map t | t in es :: EntryTree(es[t]))
  }

  /** The configuration as the JSON file holds it. */
  function ConfigTree(c: Config): Tree {
    Object(false, map h | h in c :: EntriesTree(c[h]))
  }

  /** Where the file holds a foreign asset, and how: a scalar is falsy if it is the empty string or zero. */
  lemma WrittenAt(config: Config, h: Chain, t: Token, f: Chain)
    requires h in config && t in config[h] && f in config[h][t].Cache()
    ensures var asset := config[h][t].Cache()[f];
            var file := ConfigTree(config);
            && file.IsObject() && h in file.props && file.props[h].IsObject() && t in file.props[h].props
            && var entry := file.props[h].props[t];
            && entry.IsObject() && "foreignAssets" in entry.props && entry.props["foreignAssets"].IsObject()
            && f in entry.props["foreignAssets"].props
            && entry.props["foreignAssets"].props[f] ==
                 Object(false, map["address" := Scalar(asset.address, asset.address != ""),
                                   "decimals" := Scalar(Amounts.Print(asset.decimals), asset.decimals != 0)])
  {
  }

  function AddsTree(adds: map<Chain, Foreign>): Tree {
    Object(false, map[FOREIGN_ASSETS := ForeignsTree(adds)])
  }

  function TokensTree(ts: map<Token, map<Chain, Foreign>>): Tree {
    Object(false, map t | t in ts :: AddsTree(ts[t]))
  }

  /** The suggestions as the run returns them. */
  function SuggestionsTree(s: Suggestions): Tree {
    Object(false, map h | h in s :: TokensTree(s[h]))
  }

  /** The property `foreignAssets` is not among the other properties of a token. */
  predicate WellFormed(config: Config) {
    forall h, t | h in config && t in config[h] :: FOREIGN_ASSETS !in config[h][t].meta
  }

  lemma {:induction false} ForeignMerged(t: Tree, f: Foreign, before: Foreign)
    requires t == EMPTY || t == ForeignTree(before)
    ensures Merge(t, ForeignTree(f)) == ForeignTree(f)
  {
    assert Merge(t, ForeignTree(f)).props == ForeignTree(f).props;
  }

  lemma ForeignsMerged(before: map<Chain, Foreign>, adds: map<Chain, Foreign>)
    ensures Merge(ForeignsTree(before), ForeignsTree(adds)) == ForeignsTree(before + adds)
  {
    var b, a, r := ForeignsTree(before), ForeignsTree(adds), ForeignsTree(before + adds);
    forall f | f in r.props
      ensures r.props[f] == if f in a.props then Merge(Child(b, f), a.props[f]) else b.props[f]
    {
      if f in adds {
        ForeignMerged(Child(b, f), adds[f], if f in before then before[f] else adds[f]);
      }
    }
    MergeIs(b, a, r);
  }

  lemma EntryMerged(e: Entry, adds: map<Chain, Foreign>)
    requires FOREIGN_ASSETS !in e.meta && adds != map[]
    ensures Merge(EntryTree(e), AddsTree(adds)) == EntryTree(AddForeign(e, adds))
  {
    var b, a, r := EntryTree(e), AddsTree(adds), EntryTree(AddForeign(e, adds));
    assert Child(b, FOREIGN_ASSETS) == ForeignsTree(e.Cache()) by {
      assert ForeignsTree(map[]).props == map[];
    }
    ForeignsMerged(e.Cache(), adds);
    forall k | k in r.props
      ensures r.props[k] == if k in a.props then Merge(Child(b, k), a.props[k]) else b.props[k]
    {
      if k == FOREIGN_ASSETS {
        assert r.props[k] == ForeignsTree(e.Cache() + adds);
      }
    }
    MergeIs(b, a, r);
  }

  lemma EntriesMerged(es: map<Token, Entry>, adds: map<Token, map<Chain, Foreign>>)
    requires forall t | t in es :: FOREIGN_ASSETS !in es[t].meta
    requires adds.Keys <= es.Keys && forall t | t in adds :: adds[t] != map[]
    ensures Merge(EntriesTree(es), TokensTree(adds)) == EntriesTree(UpdatedFor(es, adds))
  {
    var b, a, r := EntriesTree(es), TokensTree(adds), EntriesTree(UpdatedFor(es, adds));
    forall t | t in r.props
      ensures r.props[t] == if t in a.props then Merge(Child(b, t), a.props[t]) else b.props[t]
    {
      if t in adds {
        EntryMerged(es[t], adds[t]);
      }
    }
    MergeIs(b, a, r);
  }

  lemma NothingToAdd(es: map<Token, Entry>)
    ensures UpdatedFor(es, map[]) == es
  {
  }

  lemma ChainMerged(config: Config, s: Suggestions, h: Chain)
    requires WellFormed(config) && h in config
    requires h in s ==> s[h].Keys <= config[h].Keys && forall t | t in s[h] :: s[h][t] != map[]
    ensures ConfigTree(Updated(config, s)).props[h] ==
            if h in s then Merge(Child(ConfigTree(config), h), SuggestionsTree(s).props[h])
            else ConfigTree(config).props[h]
  {
    if h in s {
      EntriesMerged(config[h], s[h]);
    } else {
      NothingToAdd(config[h]);
    }
  }

  lemma WantedFits(ledger: Ledger, chains: seq<Chain>, config: Config, h: Chain)
    requires h in Wanted(ledger, chains, config)
    ensures var s := Wanted(ledger, chains, config);
            h in config && s[h].Keys <= config[h].Keys && forall t | t in s[h] :: s[h][t] != map[]
  {
  }

  /** Deep-merging what a run suggests adds those foreign assets to the configuration and does nothing else. */
  lemma SuggestionsMerged(ledger: Ledger, chains: seq<Chain>, config: Config)
    requires WellFormed(config)
    ensures var s := Wanted(ledger, chains, config);
            Merge(ConfigTree(config), SuggestionsTree(s)) == ConfigTree(Updated(config, s))
  {
    var s := Wanted(ledger, chains, config);
    var b, a, r := ConfigTree(config), SuggestionsTree(s), ConfigTree(Updated(config, s));
    forall h | h in r.props
      ensures r.props[h] == if h in a.props then Merge(Child(b, h), a.props[h]) else b.props[h]
    {
      if h in s {
        WantedFits(ledger, chains, config, h);
      }
      ChainMerged(config, s, h);
    }
    MergeIs(b, a, r);
  }

  /** `checkEnvConfig`: what is written back, unless the run rejects and nothing is. */
  method CheckEnvConfig(ledger: Ledger, chains: seq<Chain>, config: Config) returns (written: Option<Tree>)
    requires WellFormed(config)
    ensures written.None? <==> exists h | h in config :: Rejects(ledger, h, config[h])
    ensures written.Some? ==> written.value == ConfigTree(Updated(config, Wanted(ledger, chains, config)))
  {
    var data := GetSuggestedUpdates(ledger, chains, config);
    if data.Err? {
      return None;
    }
    var tree := MergeDeep(ConfigTree(config), [SuggestionsTree(data.value.1)]);
    SuggestionsMerged(ledger, chains, config);
    assert MergeAll(ConfigTree(config), [SuggestionsTree(data.value.1)]) ==
           Merge(ConfigTree(config), SuggestionsTree(data.value.1));
    return Some(tree);
  }

  // ---------- Convergence ----------

  /** After a run, a token whose check did not throw has every foreign asset that the chains know, as they know it. */
  lemma EntryConverges(ledger: Ledger, chains: seq<Chain>, home: Chain, token: Token, entry: Entry)
    ensures var after := AddForeign(entry, Suggested(ledger, chains, home, token, entry));
            after.meta == entry.meta &&
            entry.Cache().Items <= after.Cache().Items &&
            Suggested(ledger, chains, home, token, after) == map[] &&
            (home in SUPPORTED && !AnyClash(ledger, chains, home, token, entry.Cache()) ==>
               forall f | f in chains && Asset(ledger, home, token, f).Some? ::
                 f in after.Cache() && after.Cache()[f] == Found(Asset(ledger, home, token, f).value)) &&
            (home !in SUPPORTED || AnyClash(ledger, chains, home, token, entry.Cache()) ==> after == entry)
  {
    var adds := Suggested(ledger, chains, home, token, entry);
    var after := AddForeign(entry, adds);
    if home in SUPPORTED && !AnyClash(ledger, chains, home, token, entry.Cache()) {
      forall f | f in chains
        ensures !Clashes(ledger, home, token, after.Cache(), f) && !IsMissing(ledger, home, token, after.Cache(), f)
      {
        assert !Clashes(ledger, home, token, entry.Cache(), f);
      }
      assert Missing(ledger, chains, home, token, after.Cache()) == map[];
    }
  }

  /** The entry of a token after a run is its entry with what the run suggests for it. */
  lemma UpdatedEntry(ledger: Ledger, chains: seq<Chain>, config: Config, h: Chain, t: Token)
    requires h in config && t in config[h]
    ensures var after := Updated(config, Wanted(ledger, chains, config));
            h in after && t in after[h] &&
            after[h][t] == AddForeign(config[h][t], Suggested(ledger, chains, h, t, config[h][t]))
  {
    var tokens := SuggestedFor(ledger, chains, h, config[h]);
    assert t in tokens ==> tokens != map[];
  }

  /** A second run, on the configuration that the first wrote, suggests nothing: it is up to date. */
  lemma RunConverges(ledger: Ledger, chains: seq<Chain>, config: Config)
    ensures var after := Updated(config, Wanted(ledger, chains, config));
            Wanted(ledger, chains, after) == map[] && |Keys(Wanted(ledger, chains, after))| == 0
  {
    var after := Updated(config, Wanted(ledger, chains, config));
    forall h | h in after
      ensures !AnySuggested(ledger, chains, h, after[h])
    {
      forall t | t in after[h]
        ensures Suggested(ledger, chains, h, t, after[h][t]) == map[]
      {
        UpdatedEntry(ledger, chains, config, h, t);
        EntryConverges(ledger, chains, h, t, config[h][t]);
      }
    }
    assert Wanted(ledger, chains, after).Keys == {};
    assert Keys(Wanted(ledger, chains, after)) == {};
  }

  /** No run removes or alters anything: tokens, their other properties and their foreign assets all stay. */
  lemma NothingIsAltered(ledger: Ledger, chains: seq<Chain>, config: Config)
    ensures var after := Updated(config, Wanted(ledger, chains, config));
            after.Keys == config.Keys &&
            forall h | h in config :: after[h].Keys == config[h].Keys &&
              forall t | t in config[h] :: after[h][t].meta == config[h][t].meta &&
                config[h][t].Cache().Items <= after[h][t].Cache().Items
  {
    forall h, t | h in config && t in config[h]
      ensures var after := Updated(config, Wanted(ledger, chains, config));
              after[h][t].meta == config[h][t].meta && config[h][t].Cache().Items <= after[h][t].Cache().Items
    {
      UpdatedEntry(ledger, chains, config, h, t);
      EntryConverges(ledger, chains, h, t, config[h][t]);
    }
  }

  /**
   * A chain that cannot tell the decimals of a wrapped asset keeps every other foreign asset of that token
   * out of the registry, on this run and on the next.
   */
  lemma OneClashHoldsUpTheToken(ledger: Ledger, chains: seq<Chain>, config: Config, h: Chain, t: Token, f: Chain)
    requires h in config && t in config[h] && f in chains && Clashes(ledger, h, t, config[h][t].Cache(), f)
    ensures Updated(config, Wanted(ledger, chains, config))[h][t] == config[h][t]
  {
    UpdatedEntry(ledger, chains, config, h, t);
    EntryConverges(ledger, chains, h, t, config[h][t]);
  }

  // ---------- The file ----------

  lemma ForeignTreeIsInjective(f: Foreign, g: Foreign)
    requires ForeignTree(f) == ForeignTree(g)
    ensures f == g
  {
    var p, q := ForeignTree(f).props, ForeignTree(g).props;
    assert p["address"] == Scalar(f.address, f.address != "") && q["address"] == Scalar(g.address, g.address != "");
    assert p["decimals"].text == Amounts.Print(f.decimals) && q["decimals"].text == Amounts.Print(g.decimals);
    Amounts.PrintValue(f.decimals);
    Amounts.PrintValue(g.decimals);
  }

  lemma ForeignsTreeIsInjective(fs: map<Chain, Foreign>, gs: map<Chain, Foreign>)
    requires ForeignsTree(fs) == ForeignsTree(gs)
    ensures fs == gs
  {
    var p, q := ForeignsTree(fs).props, ForeignsTree(gs).props;
    assert fs.Keys == p.Keys == q.Keys == gs.Keys;
    forall f | f in fs ensures fs[f] == gs[f] {
      assert p[f] == ForeignTree(fs[f]) && q[f] == ForeignTree(gs[f]);
      ForeignTreeIsInjective(fs[f], gs[f]);
    }
  }

  lemma EntryTreeIsInjective(e: Entry, f: Entry)
    requires FOREIGN_ASSETS !in e.meta && FOREIGN_ASSETS !in f.meta && EntryTree(e) == EntryTree(f)
    ensures e == f
  {
    var p, q := EntryTree(e).props, EntryTree(f).props;
    assert FOREIGN_ASSETS in p <==> e.foreign.Some?;
    assert FOREIGN_ASSETS in q <==> f.foreign.Some?;
    assert e.meta == p - {FOREIGN_ASSETS} && f.meta == q - {FOREIGN_ASSETS};
    if e.foreign.Some? {
      assert p[FOREIGN_ASSETS] == ForeignsTree(e.foreign.value) && q[FOREIGN_ASSETS] == ForeignsTree(f.foreign.value);
      ForeignsTreeIsInjective(e.foreign.value, f.foreign.value);
    }
  }

  lemma EntriesTreeIsInjective(es: map<Token, Entry>, fs: map<Token, Entry>)
    requires forall t | t in es :: FOREIGN_ASSETS !in es[t].meta
    requires forall t | t in fs :: FOREIGN_ASSETS !in fs[t].meta
    requires EntriesTree(es) == EntriesTree(fs)
    ensures es == fs
  {
    var p, q := EntriesTree(es).props, EntriesTree(fs).props;
    assert es.Keys == p.Keys == q.Keys == fs.Keys;
    forall t | t in es ensures es[t] == fs[t] {
      assert p[t] == EntryTree(es[t]) && q[t] == EntryTree(fs[t]);
      EntryTreeIsInjective(es[t], fs[t]);
    }
  }

  /** The file determines the configuration: what was written is what the next run reads. */
  lemma ConfigTreeIsInjective(c: Config, d: Config)
    requires WellFormed(c) && WellFormed(d) && ConfigTree(c) == ConfigTree(d)
    ensures c == d
  {
    var p, q := ConfigTree(c).props, ConfigTree(d).props;
    assert c.Keys == p.Keys == q.Keys == d.Keys;
    forall h | h in c ensures c[h] == d[h] {
      assert p[h] == EntriesTree(c[h]) && q[h] == EntriesTree(d[h]);
      EntriesTreeIsInjective(c[h], d[h]);
    }
  }

  lemma NothingWantedNothingUpdated(config: Config)
    ensures Updated(config, map[]) == config
  {
    forall h | h in config ensures UpdatedFor(config[h], map[]) == config[h] {
      NothingToAdd(config[h]);
    }
  }

  lemma StillWellFormed(ledger: Ledger, chains: seq<Chain>, config: Config)
    requires WellFormed(config)
    ensures WellFormed(Updated(config, Wanted(ledger, chains, config)))
  {
    var after: Config := Updated(config, Wanted(ledger, chains, config));
    forall h, t | h in after && t in after[h] ensures FOREIGN_ASSETS !in after[h][t].meta {
      UpdatedEntry(ledger, chains, config, h, t);
    }
  }

  /** The second run rejects no address that the first did not. */
  lemma RejectsAsBefore(ledger: Ledger, chains: seq<Chain>, config: Config, h: Chain)
    requires h in config
    ensures Rejects(ledger, h, Updated(config, Wanted(ledger, chains, config))[h]) <==> Rejects(ledger, h, config[h])
  {
  }

  predicate AnyRejects(ledger: Ledger, config: Config) {
    exists h | h in config :: Rejects(ledger, h, config[h])
  }

  /** The configuration that a run leaves in the file: as it was, when the run rejects. */
  function LeftBehind(ledger: Ledger, chains: seq<Chain>, config: Config): Config {
    if AnyRejects(ledger, config) then config else Updated(config, Wanted(ledger, chains, config))
  }

  lemma LeftBehindStays(ledger: Ledger, chains: seq<Chain>, config: Config)
    requires WellFormed(config)
    ensures var after := LeftBehind(ledger, chains, config);
            && WellFormed(after) && LeftBehind(ledger, chains, after) == after
            && (AnyRejects(ledger, after) <==> AnyRejects(ledger, config))
            && (!AnyRejects(ledger, after) ==> Wanted(ledger, chains, after) == map[])
  {
    if !AnyRejects(ledger, config) {
      var after := Updated(config, Wanted(ledger, chains, config));
      StillWellFormed(ledger, chains, config);
      RunConverges(ledger, chains, config);
      NothingWantedNothingUpdated(after);
      forall h | h in config ensures Rejects(ledger, h, after[h]) <==> Rejects(ledger, h, config[h]) {
        RejectsAsBefore(ledger, chains, config, h);
      }
      assert after.Keys == config.Keys;
    }
  }

  /**
   * The script run twice, with the same answers: the configuration that the second run reads is the one in the file
   * that the first run has left, and the second run writes that very file again, or rejects if the first did.
   */
  method CheckTwice(ledger: Ledger, chains: seq<Chain>, config: Config, read: Config)
    returns (first: Option<Tree>, second: Option<Tree>)
    requires WellFormed(config) && WellFormed(read)
    requires ConfigTree(read) == ConfigTree(LeftBehind(ledger, chains, config))
    ensures read == LeftBehind(ledger, chains, config)
    ensures second == first && (first.Some? <==> !AnyRejects(ledger, config))
    ensures first.Some? ==> first.value == ConfigTree(read) && Wanted(ledger, chains, read) == map[]
  {
    LeftBehindStays(ledger, chains, config);
    ConfigTreeIsInjective(read, LeftBehind(ledger, chains, config));
    first := CheckEnvConfig(ledger, chains, config);
    second := CheckEnvConfig(ledger, chains, read);
  }
}
