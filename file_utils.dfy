/** `save_image` as a sink: a store that records every image written and
    returns where it went. The directory layout and the random file-name
    prefix are not modelled; `locate` stands for them. */
module FileUtils {
  import opened Types

  /** One call of `save_image(image_bytes, filename, status_folder)` and the
      path it returned. */
  datatype SavedImage = SavedImage(image: Option<Bytes>, filename: string, folder: string, path: string)

  class ImageStore {
    /** The path of the n-th image saved with a given file name into a folder. */
    const locate: (nat, string, string) -> string
    /** Every image saved so far, oldest first. */
    var saved: seq<SavedImage>

    constructor (locate: (nat, string, string) -> string)
      ensures this.locate == locate && saved == []
    {
      this.locate := locate;
      saved := [];
    }

    method SaveImage(image: Option<Bytes>, filename: string, folder: string) returns (path: string)
      modifies this
      ensures path == locate(|old(saved)|, filename, folder)
      ensures saved == old(saved) + [SavedImage(image, filename, folder, path)]
    {
      path := locate(|saved|, filename, folder);
      saved := saved + [SavedImage(image, filename, folder, path)];
    }
  }
}
