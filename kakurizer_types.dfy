/** The record types of the pipeline (kakurizer_types.py) and the exceptions it raises. */
module KakurizerTypes {

  /** One puzzle as read from an index page. `difficulty` holds the name of a `Difficulty`. */
  datatype IndexPuzzle = IndexPuzzle(id: int, timestampMillis: int, pageUrl: string, difficulty: string)

  /** The enum `Difficulty`; `Value` is the enum member's value. */
  datatype Difficulty = EASY | MEDIUM | HARD {
    function Name(): string {
      match this
      case EASY => "EASY"
      case MEDIUM => "MEDIUM"
      case HARD => "HARD"
    }

    function Value(): int {
      match this
      case EASY => 1
      case MEDIUM => 2
      case HARD => 3
    }
  }

  /** Width, height and encoding format of a decoded image. */
  datatype ImageMetadata = ImageMetadata(width: int, height: int, format: string)

  newtype byte = x: int | 0 <= x < 256

  /** The Python exceptions the core can raise. */
  datatype Exception =
    | ValueError(message: string)
    | IndexError
    | KeyError(key: string)
    | AttributeError
}
