/** The CSV-backed store of per-contract futures prices: a repository object
    fixed at construction to a data path and a read configuration, working
    over a directory holding one price file per contract key. */
module CsvFuturesContractPrices {
  import opened Results
  import opened KeyNames
  import opened PriceTables

  /** The date format of a price file. The default is the library-wide
      default format, whose text is not part of this model. */
  datatype DateFormat = DefaultDateFormat | Pattern(pattern: string)

  /** How price files are read. */
  datatype Config = Config(
    inputDateIndexName: string,
    inputDateFormat: DateFormat,
    inputColumnMapping: Option<map<string, string>>,
    inputSkiprows: int,
    inputSkipfooter: int,
    applyMultiplier: real,
    applyInverse: bool)

  /** The configuration used when none is passed. */
  function DefaultConfig(): Config
  {
    Config("DATETIME", DefaultDateFormat, None, 0, 0, 1.0, false)
  }

  /** Errors the repository raises. */
  datatype RepositoryError =
    | NeedDatapath
    | NotImplemented(message: string)

  const DELETE_MESSAGE: string :=
    "You can't delete futures prices stored as a csv - Add to overwrite existing data, or delete file manually"

  /** A directory of price files: the stored table of each key, and the keys
      in the order a listing of the directory yields them. */
  class CsvDirectory {
    var files: map<string, Table>
    var listing: seq<string>

    /** The listing names each stored file exactly once. */
    ghost predicate Valid()
      reads this
    {
      && (forall i, j :: 0 <= i < j < |listing| ==> listing[i] != listing[j])
      && (forall k :: k in files <==> k in listing)
    }

    constructor Empty()
      ensures Valid() && files == map[] && listing == []
    {
      files := map[];
      listing := [];
    }

    /** The table stored under a key, or None when there is no such file. */
    function ReadFile(key: string): (r: Option<Table>)
      reads this
      ensures r.Some? <==> key in files
      ensures r.Some? ==> r.value == files[key]
    {
      if key in files then Some(files[key]) else None
    }

    /** Writes a whole file, replacing any earlier contents; a new file joins
        the end of the listing. */
    method WriteFile(key: string, t: Table)
      requires Valid()
      modifies this
      ensures Valid()
      ensures files == old(files)[key := t]
      ensures listing == if key in old(files) then old(listing) else old(listing) + [key]
    {
      if key !in files {
        listing := listing + [key];
      }
      files := files[key := t];
    }
  }

  /** The repository: its data path and configuration are fixed when it is
      created, and all it reads and writes lives in `directory`. */
  class CsvFuturesContractPriceData {
    const datapath: string
    const config: Config
    const directory: CsvDirectory

    ghost predicate Valid()
      reads this, directory
    {
      directory.Valid()
    }

    /** A repository over `directory`, with the default configuration when
        none is given. */
    constructor (datapath: string, config: Option<Config>, directory: CsvDirectory)
      requires directory.Valid()
      ensures Valid()
      ensures this.datapath == datapath && this.directory == directory
      ensures config.Some? ==> this.config == config.value
      ensures config.None? ==> && this.config.inputDateIndexName == "DATETIME"
                               && this.config.inputDateFormat == DefaultDateFormat
                               && this.config.inputColumnMapping == None
                               && this.config.inputSkiprows == 0
                               && this.config.inputSkipfooter == 0
                               && this.config.applyMultiplier == 1.0
                               && !this.config.applyInverse
    {
      this.datapath := datapath;
      this.config := if config.Some? then config.value else DefaultConfig();
      this.directory := directory;
    }

    /** Creating a repository without a data path fails. */
    static method Create(datapath: Option<string>, config: Option<Config>, directory: CsvDirectory)
      returns (r: Result<CsvFuturesContractPriceData, RepositoryError>)
      requires directory.Valid()
      ensures r.Err? <==> datapath.None?
      ensures r.Err? ==> r.error == NeedDatapath
      ensures r.Ok? ==> && fresh(r.value) && r.value.Valid()
                        && r.value.datapath == datapath.value && r.value.directory == directory
                        && r.value.config == (if config.Some? then config.value else DefaultConfig())
    {
      if datapath.None? {
        return Err(NeedDatapath);
      }
      var repo := new CsvFuturesContractPriceData(datapath.value, config, directory);
      r := Ok(repo);
    }

    /** Whether the listing of the directory holds the contract's key, that
        is, whether a price file is stored for it. */
    function HasMergedPriceData(c: Contract): (r: bool)
      requires Valid()
      reads this, directory
      ensures r <==> Encode(c) in directory.files
    {
      Encode(c) in directory.listing
    }

    /** Reads a contract's prices: the empty table when it has no file, and
        otherwise the file's lines with duplicate timestamps collapsed. */
    method GetMergedPrices(c: Contract) returns (prices: Table)
      requires Valid()
      ensures !HasMergedPriceData(c) ==> prices == []
      ensures HasMergedPriceData(c) ==> prices == Collapse(directory.files[Encode(c)])
      ensures Ascending(prices)
      ensures forall l :: l in prices ==> l in directory.files[Encode(c)]
    {
      var stored := directory.ReadFile(Encode(c));
      match stored {
        case None =>
          prices := [];
        case Some(t) =>
          prices := Collapse(t);
          forall l | l in prices ensures l in t {
            LastWinsIsLastIndex(t, l.time);
          }
      }
    }

    /** Writes a contract's prices, replacing its file and leaving every
        other file as it was. */
    method WriteMergedPrices(c: Contract, prices: Table)
      requires Valid()
      modifies directory
      ensures Valid()
      ensures directory.files == old(directory.files)[Encode(c) := prices]
      ensures directory.listing == if Encode(c) in old(directory.files) then old(directory.listing)
                                   else old(directory.listing) + [Encode(c)]
      ensures HasMergedPriceData(c)
      ensures forall d :: Encode(d) != Encode(c) ==> HasMergedPriceData(d) == old(HasMergedPriceData(d))
    {
      directory.WriteFile(Encode(c), prices);
    }

    /** Deleting is refused whether or not the contract has a file. */
    method DeleteMergedPrices(c: Contract) returns (r: Outcome<RepositoryError>)
      ensures r == Fail(NotImplemented(DELETE_MESSAGE))
    {
      r := Fail(NotImplemented(DELETE_MESSAGE));
    }

    /** The contracts that have price files, decoded from the listing in its
        order; a malformed key makes the enumeration fail. */
    function ContractsWithMergedPriceData(): (r: Result<seq<Contract>, KeyError>)
      requires Valid()
      reads this, directory
      ensures r.Ok? <==> forall i :: 0 <= i < |directory.listing| ==> Decode(directory.listing[i]).Ok?
      ensures r.Ok? ==> |r.value| == |directory.listing|
      ensures r.Ok? ==> forall i :: 0 <= i < |r.value| ==> Decode(directory.listing[i]) == Ok(r.value[i])
      ensures r.Ok? ==> forall i :: 0 <= i < |r.value| ==>
        Encode(r.value[i]) == directory.listing[i] && HasMergedPriceData(r.value[i])
      ensures r.Err? ==> exists k :: k in directory.listing && Decode(k) == Err(r.error)
    {
      var r := DecodeAll(directory.listing);
      if r.Ok? then
        assert forall i :: 0 <= i < |r.value| ==> Encode(r.value[i]) == directory.listing[i] by {
          forall i | 0 <= i < |r.value| ensures Encode(r.value[i]) == directory.listing[i] {
            DecodeLosesNothing(directory.listing[i]);
          }
        }
        r
      else
        r
    }
  }

  /** With the default read configuration, reading after a write gives the
      written table collapsed; a table with ascending timestamps reads back
      unchanged. */
  method WriteThenRead(repo: CsvFuturesContractPriceData, c: Contract, prices: Table)
    returns (back: Table)
    requires repo.Valid() && repo.config == DefaultConfig()
    modifies repo.directory
    ensures back == Collapse(prices)
    ensures Ascending(prices) ==> back == prices
  {
    repo.WriteMergedPrices(c, prices);
    back := repo.GetMergedPrices(c);
    if Ascending(prices) {
      CollapseAscending(prices);
    }
  }

  /** With the default read configuration, a second write replaces the
      first. */
  method OverwriteThenRead(repo: CsvFuturesContractPriceData, c: Contract, first: Table, second: Table)
    returns (back: Table)
    requires repo.Valid() && repo.config == DefaultConfig()
    modifies repo.directory
    ensures back == Collapse(second)
  {
    repo.WriteMergedPrices(c, first);
    repo.WriteMergedPrices(c, second);
    back := repo.GetMergedPrices(c);
  }
}
