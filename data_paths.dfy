/** The data-path helper of the collection package (src/data/__init__.py): a data type named
    in any letter case selects its directory under the raw-data root. */
module DataPaths {
  import opened Text

  const DefaultRawDataPath: string := "data/raw"
  const DefaultLerPath: string := DefaultRawDataPath + "/ler"
  const DefaultRegulationsPath: string := DefaultRawDataPath + "/regulations"

  /** A path, or the message of the `ValueError` raised instead. */
  datatype PathResult = Path(path: string) | ValueError(msg: string)

  /** `get_data_path(data_type)`. */
  function GetDataPath(dataType: string): (r: PathResult)
    ensures r.Path? <==> Lower(dataType) == "ler" || Lower(dataType) == "regulations"
    ensures r.Path? ==> r.path == DefaultRawDataPath + "/" + Lower(dataType)
    ensures r.ValueError? ==> r.msg == "Unknown data type: " + dataType
  {
    if Lower(dataType) == "ler" then Path(DefaultLerPath)
    else if Lower(dataType) == "regulations" then Path(DefaultRegulationsPath)
    else ValueError("Unknown data type: " + dataType)
  }
}
