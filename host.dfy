/**
 * What the script talks to: the `github_release` calls on one repository and
 * the release's working directory `<root>/<algo>`, which holds the blob cache
 * (one file per checksum) and the index files. Every call and every file the
 * script writes is recorded, in order, in `trace`.
 */
module Host {
  import opened Wrappers

  /** An entry of `get_assets`: the asset's name and its upload state. */
  datatype Asset = Asset(name: string, state: string)

  datatype Event =
    | Fetch(repo: string, tag: string, name: string)        // gh_asset_download into the working directory
    | List(repo: string, tag: string)                       // get_assets
    | Delete(repo: string, tag: string, name: string)       // gh_asset_delete
    | Upload(repo: string, tag: string, name: string)       // gh_asset_upload of a file of the working directory
    | Create(repo: string, tag: string, publish: bool)      // gh_release_create
    | Edit(repo: string, tag: string, body: string)         // gh_release_edit
    | Cache(source: string, checksum: string)               // copyfile from the incoming directory into the cache
    | Write(name: string, text: string)                     // writing a file of the working directory
    | CopyOut(checksum: string, localName: string)          // copyfile from the cache into the download directory

  class Host {
    /**
     * What `gh_asset_download(repo, tag, name)` obtains: the asset's content
     * as text, or None when the download fails. Only the index is read as
     * text; of a blob only the success matters.
     */
    const published: (string, string, string) -> Option<string>
    /** What `get_assets(repo, tag)` returns. */
    const listing: (string, string) -> seq<Asset>
    var trace: seq<Event>
    /** The names of the files present in the working directory. */
    var files: set<string>

    constructor (published: (string, string, string) -> Option<string>,
                 listing: (string, string) -> seq<Asset>, files: set<string>)
      ensures this.published == published && this.listing == listing
      ensures trace == [] && this.files == files
    {
      this.published := published;
      this.listing := listing;
      this.trace := [];
      this.files := files;
    }

    /** `gh_asset_download`, run with the working directory as current directory. */
    method AssetDownload(repo: string, tag: string, name: string) returns (content: Option<string>)
      modifies this
      ensures content == published(repo, tag, name)
      ensures trace == old(trace) + [Fetch(repo, tag, name)]
      ensures files == if content.Some? then old(files) + {name} else old(files)
    {
      content := published(repo, tag, name);
      trace := trace + [Fetch(repo, tag, name)];
      if content.Some? { files := files + {name}; }
    }

    method GetAssets(repo: string, tag: string) returns (assets: seq<Asset>)
      modifies this
      ensures assets == listing(repo, tag)
      ensures trace == old(trace) + [List(repo, tag)] && files == old(files)
    {
      assets := listing(repo, tag);
      trace := trace + [List(repo, tag)];
    }

    method AssetDelete(repo: string, tag: string, name: string)
      modifies this
      ensures trace == old(trace) + [Delete(repo, tag, name)] && files == old(files)
    {
      trace := trace + [Delete(repo, tag, name)];
    }

    method AssetUpload(repo: string, tag: string, name: string)
      modifies this
      ensures trace == old(trace) + [Upload(repo, tag, name)] && files == old(files)
    {
      trace := trace + [Upload(repo, tag, name)];
    }

    method ReleaseCreate(repo: string, tag: string, publish: bool)
      modifies this
      ensures trace == old(trace) + [Create(repo, tag, publish)] && files == old(files)
    {
      trace := trace + [Create(repo, tag, publish)];
    }

    method ReleaseEdit(repo: string, tag: string, body: string)
      modifies this
      ensures trace == old(trace) + [Edit(repo, tag, body)] && files == old(files)
    {
      trace := trace + [Edit(repo, tag, body)];
    }

    /** `os.remove` of a working-directory file, if it is there. */
    method RemoveFile(name: string)
      modifies this
      ensures files == old(files) - {name} && trace == old(trace)
    {
      files := files - {name};
    }

    /** Copy an incoming file into the cache under its checksum. */
    method CacheBlob(source: string, checksum: string)
      modifies this
      ensures files == old(files) + {checksum}
      ensures trace == old(trace) + [Cache(source, checksum)]
    {
      files := files + {checksum};
      trace := trace + [Cache(source, checksum)];
    }

    method WriteFile(name: string, text: string)
      modifies this
      ensures files == old(files) + {name}
      ensures trace == old(trace) + [Write(name, text)]
    {
      files := files + {name};
      trace := trace + [Write(name, text)];
    }

    /** Copy a cached blob into the download directory. */
    method CopyBlobOut(checksum: string, localName: string)
      modifies this
      ensures trace == old(trace) + [CopyOut(checksum, localName)] && files == old(files)
    {
      trace := trace + [CopyOut(checksum, localName)];
    }
  }
}
