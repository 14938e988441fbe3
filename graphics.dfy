/**
 * The little of the graphics backend and the image decoder that the loader's
 * behaviour depends on: texture names come from a counter, and each decoded
 * image is uploaded to its texture with the pixel format the channel table
 * picks.
 */
module Graphics {
  import opened Wrappers
  import opened Formats

  /** What the image decoder reports for a file it could open (width, height, nrComponents). */
  datatype Image = Image(width: nat, height: nat, channels: int)

  /** The texture state of the graphics context. */
  class Gl {
    /** The name the next glGenTextures call hands out. */
    var nextTexture: nat
    /**
     * The textures that received an image, with the format it was uploaded in
     * (None: a channel count outside the table, so an unset format).
     */
    var images: map<nat, Option<PixelFormat>>

    constructor ()
      ensures nextTexture == 1 && images == map[]
    {
      nextTexture := 1;
      images := map[];
    }

    /** glGenTextures(1, &id): a name not handed out before. */
    method GenTexture() returns (id: nat)
      modifies this
      ensures id == old(nextTexture) && nextTexture == old(nextTexture) + 1
      ensures images == old(images)
    {
      id := nextTexture;
      nextTexture := nextTexture + 1;
    }

    /** glTexImage2D on texture id (bound just before) with the given format. */
    method TexImage2D(id: nat, format: Option<PixelFormat>)
      modifies this
      ensures images == old(images)[id := format]
      ensures nextTexture == old(nextTexture)
    {
      images := images[id := format];
    }
  }
}
