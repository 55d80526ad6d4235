/** The statistic each region is coloured by: the number of PKH (Program
    Keluarga Harapan) beneficiaries, either as a raw count or per 1000
    inhabitants, looked up by the region's name in a fixture table. */
module Pkh {
  import opened Optional

  /** One region's record: `jumlah` beneficiaries out of `penduduk` inhabitants. */
  datatype PkhRecord = PkhRecord(jumlah: real, penduduk: real)

  /** The radio-button choice: the raw count or the rate per 1000. */
  datatype Metric = Jumlah | Per1000

  /** A region name read from a feature's properties; `None` when the
      property is missing. */
  type RegionCode = Option<string>

  /** Every record in the table has a positive population, so the rate is defined. */
  ghost predicate Rated(table: map<string, PkhRecord>)
  {
    forall code :: code in table ==> table[code].penduduk > 0.0
  }

  /** `dummyKecamatan[code]` / `dummyDesa[code]`: exact string match, `undefined` otherwise. */
  function Lookup(table: map<string, PkhRecord>, code: RegionCode): (r: Option<PkhRecord>)
    ensures r.Some? <==> code.Some? && code.value in table
    ensures r.Some? ==> r.value == table[code.value]
  {
    if code.Some? && code.value in table then Some(table[code.value]) else None
  }

  /** `valueFor`: the scalar a region is classified by. */
  function ValueFor(rec: Option<PkhRecord>, metric: Metric): (r: real)
    requires rec.Some? && metric == Per1000 ==> rec.value.penduduk > 0.0
    ensures rec.None? ==> r == 0.0
    ensures rec.Some? && metric == Jumlah ==> r == rec.value.jumlah
    ensures rec.Some? && metric == Per1000 ==> r * rec.value.penduduk == 1000.0 * rec.value.jumlah
    ensures rec.Some? && rec.value.jumlah >= 0.0 ==> r >= 0.0
    ensures rec.Some? && metric == Per1000 && rec.value.jumlah <= rec.value.penduduk ==> r <= 1000.0
  {
    match rec
    case None => 0.0
    case Some(record) =>
      if metric == Jumlah then record.jumlah
      else (record.jumlah / record.penduduk) * 1000.0
  }

  /** The value of one feature of a layer: look the code up, then resolve the metric. */
  function FeatureValue(table: map<string, PkhRecord>, code: RegionCode, metric: Metric): (r: real)
    requires metric == Per1000 ==> Rated(table)
    ensures code.None? || code.value !in table ==> r == 0.0
    ensures code.Some? && code.value in table && metric == Jumlah ==> r == table[code.value].jumlah
    ensures code.Some? && code.value in table && metric == Per1000 ==>
              r * table[code.value].penduduk == 1000.0 * table[code.value].jumlah
  {
    ValueFor(Lookup(table, code), metric)
  }

  /** The district fixture (`dummyKecamatan`). */
  const KecamatanTable: map<string, PkhRecord> := map[
    "Purwakarta" := PkhRecord(3500.0, 42000.0),
    "KEC_B" := PkhRecord(120.0, 18000.0),
    "KEC_C" := PkhRecord(500.0, 60000.0),
    "KEC_D" := PkhRecord(45.0, 8000.0),
    "KEC_E" := PkhRecord(210.0, 25000.0)
  ]

  /** The village fixture (`dummyDesa`). */
  const DesaTable: map<string, PkhRecord> := map[
    "Nagri Kidul" := PkhRecord(40.0, 3200.0),
    "DESA_A2" := PkhRecord(120.0, 8200.0),
    "DESA_B1" := PkhRecord(30.0, 2000.0),
    "DESA_B2" := PkhRecord(90.0, 4600.0),
    "DESA_C1" := PkhRecord(200.0, 24000.0),
    "DESA_C2" := PkhRecord(150.0, 12000.0),
    "DESA_D1" := PkhRecord(10.0, 1200.0),
    "DESA_E1" := PkhRecord(60.0, 5200.0),
    "DESA_E2" := PkhRecord(150.0, 8000.0)
  ]

  /** Both fixtures have positive populations, so the rate never divides by zero. */
  lemma FixturesRated()
    ensures Rated(KecamatanTable) && Rated(DesaTable)
  {
  }
}
