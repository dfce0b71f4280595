/** Values shared by every part of the list model. */
module Music {

  /** A value that may be absent (`null`/`undefined` in the component). */
  datatype Option<T> = None | Some(value: T)

  /** A track entry. The list logic only ever looks at its identity `id`;
      `name` stands for the display fields the renderer uses. */
  datatype MusicInfo = MusicInfo(id: string, name: string)
}
