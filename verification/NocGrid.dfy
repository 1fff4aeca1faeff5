/** Tiles, their addresses on the two networks, and lists of them built row by row. */
module NocGrid {
  import opened Bits
  import opened Coords

  /** A harvesting mask: bit `i` of the u32 is element `i`. */
  type Mask = s: seq<bool> | |s| == 32 witness Zeros(32)

  datatype NocAddress = NocAddress(n0: Coord, n1: Coord)

  datatype Tile = Tile(addr: NocAddress, alignRead: nat, alignWrite: nat)

  datatype Size = Size(x: nat, y: nat)
  {
    predicate Has(t: Coord) {
      t.0 < x && t.1 < y
    }

    /** The place of a tile on the second network, which counts from the far corner. */
    function Flipped(t: Coord): (r: Coord)
      requires Has(t)
      ensures Has(r)
    {
      Flip(x, y, t)
    }

    function Address(t: Coord): NocAddress
      requires Has(t)
    {
      NocAddress(t, Flipped(t))
    }
  }

  // ------------------------------------------------------- masks

  function Popcount(s: seq<bool>): (n: nat)
    ensures n <= |s|
  {
    if s == [] then 0 else Popcount(s[..|s| - 1]) + Unit(s[|s| - 1])
  }

  /** Every bit of the first mask is set in the second. */
  predicate Within(h: seq<bool>, k: seq<bool>) {
    |h| == |k| && forall i :: 0 <= i < |h| && h[i] ==> k[i]
  }

  lemma {:induction false} PopcountMonotone(h: seq<bool>, k: seq<bool>)
    requires Within(h, k)
    ensures Popcount(h) <= Popcount(k)
    ensures Popcount(h) == Popcount(k) <==> h == k
  {
    if h != [] {
      var n := |h| - 1;
      PopcountMonotone(h[..n], k[..n]);
      assert h == h[..n] + [h[n]] && k == k[..n] + [k[n]];
    }
  }

  lemma PopcountNext(s: seq<bool>, n: nat)
    requires n < |s|
    ensures Popcount(s[..n + 1]) == Popcount(s[..n]) + Unit(s[n])
  {
    assert s[..n + 1][..n] == s[..n];
  }

  // ------------------------------------------------------- lists of tiles

  function Places(cores: seq<NocAddress>): (r: seq<Coord>)
    ensures |r| == |cores|
    ensures forall i :: 0 <= i < |r| ==> r[i] == cores[i].n0
  {
    seq(|cores|, i requires 0 <= i < |cores| => cores[i].n0)
  }

  predicate Distinct<T(==)>(s: seq<T>) {
    forall i, j :: 0 <= i < j < |s| ==> s[i] != s[j]
  }

  /** `cores` holds each of the tiles exactly once and nothing else, every one with its
      addresses on both networks. */
  ghost predicate Lists(size: Size, cores: seq<NocAddress>, tiles: set<Coord>) {
    && (forall i :: 0 <= i < |cores| ==> size.Has(cores[i].n0) && cores[i] == size.Address(cores[i].n0))
    && Distinct(Places(cores))
    && forall t :: t in Places(cores) <==> t in tiles
  }

  function RowOf(size: Size, cols: seq<nat>, y: nat): (r: seq<NocAddress>)
    requires forall i :: 0 <= i < |cols| ==> size.Has((cols[i], y))
    ensures |r| == |cols|
    ensures forall i :: 0 <= i < |cols| ==> r[i] == size.Address((cols[i], y))
  {
    seq(|cols|, i requires 0 <= i < |cols| => size.Address((cols[i], y)))
  }

  /** Adding a row that is not there yet adds exactly its tiles. */
  lemma AppendRow(size: Size, cores: seq<NocAddress>, tiles: set<Coord>, cols: seq<nat>, y: nat, more: set<Coord>)
    requires Lists(size, cores, tiles) && Distinct(cols)
    requires forall i :: 0 <= i < |cols| ==> size.Has((cols[i], y))
    requires forall t :: t in tiles ==> t.1 != y
    requires forall t :: t in more <==> t in tiles || (t.0 in cols && t.1 == y)
    ensures Lists(size, cores + RowOf(size, cols, y), more)
  {
    var row := RowOf(size, cols, y);
    var all := cores + row;
    hide RowOf, Places;
    assert forall i :: 0 <= i < |row| ==> Places(row)[i].1 == y;
    assert Places(all) == Places(cores) + Places(row);
    forall t | t in more
      ensures t in Places(all)
    {
      if t.1 == y {
        var i :| 0 <= i < |cols| && cols[i] == t.0;
        assert Places(row)[i] == t;
      }
    }
    forall i, j | 0 <= i < j < |all|
      ensures Places(all)[i] != Places(all)[j]
    {
      if i < |cores| <= j {
        assert Places(all)[i] in Places(cores);
      }
    }
  }

  /** Two lists of tiles that are apart on one network are apart on both. */
  lemma ApartOnBoth(size: Size, s: Coord, t: Coord)
    requires size.Has(s) && size.Has(t)
    ensures size.Flipped(size.Flipped(t)) == t
    ensures s != t ==> size.Address(s).n0 != size.Address(t).n0 && size.Address(s).n1 != size.Address(t).n1
  {
  }

  function TilesAt(size: Size, places: seq<Coord>, alignRead: nat, alignWrite: nat): (r: seq<Tile>)
    requires forall i :: 0 <= i < |places| ==> size.Has(places[i])
    ensures |r| == |places|
    ensures forall i :: 0 <= i < |r| ==> r[i] == Tile(size.Address(places[i]), alignRead, alignWrite)
  {
    seq(|places|, i requires 0 <= i < |places| => Tile(size.Address(places[i]), alignRead, alignWrite))
  }

  function Addresses(tiles: seq<Tile>): (r: seq<NocAddress>)
    ensures |r| == |tiles|
    ensures forall i :: 0 <= i < |r| ==> r[i] == tiles[i].addr
  {
    seq(|tiles|, i requires 0 <= i < |tiles| => tiles[i].addr)
  }

  /** The tensix tiles of a chip: aligned to 16 bytes for reads and writes. */
  function TensixTiles(cores: seq<NocAddress>): (r: seq<Tile>)
    ensures Addresses(r) == cores
    ensures forall i :: 0 <= i < |r| ==> r[i].alignRead == r[i].alignWrite == 16
  {
    seq(|cores|, i requires 0 <= i < |cores| => Tile(cores[i], 16, 16))
  }

  lemma ListedInside(size: Size, tensix: seq<Tile>, tiles: set<Coord>, i: nat)
    requires Lists(size, Addresses(tensix), tiles) && i < |tensix|
    ensures size.Has(Places(Addresses(tensix))[i]) && Places(Addresses(tensix))[i] in tiles
  {
    assert Places(Addresses(tensix))[i] in Places(Addresses(tensix));
  }

  /** A listed tensix tile keeps away from every place that is not in the listed set, on both
      networks. */
  lemma ListedApart(size: Size, tensix: seq<Tile>, tiles: set<Coord>, t: Tile, place: Coord)
    requires Lists(size, Addresses(tensix), tiles) && t in tensix
    requires size.Has(place) && place !in tiles
    ensures t.addr.n0 in tiles && size.Has(t.addr.n0)
    ensures t.addr.n0 != place && t.addr.n1 != size.Flipped(place)
  {
    var i :| 0 <= i < |tensix| && tensix[i] == t;
    assert Addresses(tensix)[i] == t.addr;
    assert Places(Addresses(tensix))[i] == t.addr.n0;
    ApartOnBoth(size, t.addr.n0, place);
  }
}
