/** Where things lie on a FAT16 volume, by the FAT specification 1.03, "FAT Data Structure": reserved sectors, the copies of
    the table, the root directory, and the clusters, one behind the other. */
module FatLayout {
  import opened Bits
  import opened Division
  import opened Streamer
  import opened FatVolume

  /** The first sector of cluster 2: the root directory takes up whole sectors. */
  function FirstDataSector(reserved: nat, copies: nat, sectorsPerFat: nat, rootEntries: nat): nat {
    reserved + copies * sectorsPerFat + (rootEntries * 32 + 511) / 512
  }

  /** The first byte of the k-th copy of the table; behind the last copy is the root directory. */
  function FatStart(v: Volume, k: nat): nat {
    (v.reservedSectors + k * v.sectorsPerFat) * 512
  }

  function RootStart(v: Volume): nat {
    (v.reservedSectors + v.fatCopies * v.sectorsPerFat) * 512
  }

  /** The clusters begin at the first sector that has no part of the root directory. */
  lemma DataIsBehindRoot(v: Volume)
    ensures v.ClusterPos(2) == FirstDataSector(v.reservedSectors, v.fatCopies, v.sectorsPerFat, v.rootDirEntries) * 512
    ensures v.ClusterPos(2) % 512 == 0
    ensures RootStart(v) + v.rootDirEntries * 32 <= v.ClusterPos(2) < RootStart(v) + v.rootDirEntries * 32 + 512
  {
    RoundedUp(v.rootDirEntries * 32);
  }

  lemma RoundedUp(size: nat)
    ensures size / 512 + (if size % 512 != 0 then 1 else 0) == (size + 511) / 512
  {
  }

  /** Every cluster is right behind the one before it. */
  lemma ClustersFollow(v: Volume, cluster: int)
    ensures v.ClusterPos(cluster + 1) == v.ClusterPos(cluster) + v.sectorsPerCluster * 512
  {
    assert (cluster + 1 - 2) * v.sectorsPerCluster == (cluster - 2) * v.sectorsPerCluster + v.sectorsPerCluster;
  }

  /** The position of a cluster, by "FAT Data Structure". */
  lemma ClusterIsAt(v: Volume, cluster: int)
    ensures v.ClusterPos(cluster) ==
            (FirstDataSector(v.reservedSectors, v.fatCopies, v.sectorsPerFat, v.rootDirEntries)
             + (cluster - 2) * v.sectorsPerCluster) * 512
  {
    RoundedUp(v.rootDirEntries * 32);
    hide FirstDataSector;
    assert v.EndingSector() == FirstDataSector(v.reservedSectors, v.fatCopies, v.sectorsPerFat, v.rootDirEntries) by {
      DataIsBehindRoot(v);
    }
  }

  lemma Product(a: nat, b: nat, s: nat)
    requires a < b
    ensures a * s + s <= b * s
  {
    Monotone(a, b, s);
  }

  /** No cluster reaches into another one, and all of them are behind the root directory. */
  lemma ClustersAreDisjoint(v: Volume, c: nat, d: nat)
    requires 2 <= c < d
    ensures v.ClusterPos(c) + v.sectorsPerCluster * 512 <= v.ClusterPos(d)
    ensures RootStart(v) + v.rootDirEntries * 32 <= v.ClusterPos(c)
  {
    ClusterIsAt(v, c);
    ClusterIsAt(v, d);
    DataIsBehindRoot(v);
    hide FirstDataSector, RootStart, Volume.ClusterPos;
    Product(c - 2, d - 2, v.sectorsPerCluster);
  }

  /** The copies of the table are behind the reserved sectors, do not reach into one another, and end before the root
      directory. The driver reads the entries of all clusters that the table has room for in the first copy. */
  lemma TablesAreInOrder(v: Volume, k: nat)
    requires k < v.fatCopies
    ensures v.reservedSectors * 512 <= FatStart(v, k)
    ensures FatStart(v, k) + v.sectorsPerFat * 512 <= (if k + 1 < v.fatCopies then FatStart(v, k + 1) else RootStart(v))
  {
    Product(k, k + 1, v.sectorsPerFat);
    assert (k + 1) * v.sectorsPerFat == k * v.sectorsPerFat + v.sectorsPerFat;
  }

  lemma EntryIsInFirstTable(v: Volume, cluster: nat)
    requires 2 * cluster + 2 <= v.sectorsPerFat * 512
    ensures var at := FatStart(v, 0) + 2 * cluster;
      && FatStart(v, 0) <= at && at + 2 <= FatStart(v, 0) + v.sectorsPerFat * 512
      && v.FatEntry(cluster) == v.disk(at) as int + 256 * v.disk(at + 1) as int
  {
  }

  /** The number of clusters is the largest for which all of them are in the volume. */
  lemma ClustersFitVolume(v: Volume)
    requires v.Valid() && v.ClusterPos(2) <= v.totalSectors * 512
    ensures var last := v.ClusterCount() + 1;
      v.ClusterPos(last + 1) <= v.totalSectors * 512 < v.ClusterPos(last + 2)
  {
    var data := v.totalSectors - v.EndingSector();
    var n := v.ClusterCount();
    Divides(data, v.sectorsPerCluster);
    assert v.ClusterSector(n + 2) == v.EndingSector() + n * v.sectorsPerCluster;
    assert v.ClusterSector(n + 3) == v.EndingSector() + (n + 1) * v.sectorsPerCluster;
    assert (n + 1) * v.sectorsPerCluster == n * v.sectorsPerCluster + v.sectorsPerCluster;
  }

  lemma Divides(x: nat, s: nat)
    requires s > 0
    ensures x / s * s <= x < x / s * s + s
  {
    assert x == x / s * s + x % s;
  }
}
