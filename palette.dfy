/** The colour palette and the buttons made from it: one button per palette
    key, in key order, labelled with the key's first character upper-cased,
    that recolours the model with the key's colour when clicked. */
module Palette {
  import opened Surfaces

  /** One palette entry: the key and the colour it names. */
  datatype Entry = Entry(key: string, color: Rgb)

  /** The palette, in the order its keys are enumerated. */
  const Colors: seq<Entry> :=
    [Entry("red", 0x820300), Entry("blue", 0x000B58), Entry("black", 0x000000)]

  /** A palette button: its text, its background colour, and the colour its
      click handler passes to the recolour handler. */
  datatype Button = Button(text: string, background: Rgb, onClick: Rgb)

  predicate IsLower(ch: char) { 'a' <= ch <= 'z' }

  predicate IsUpper(ch: char) { 'A' <= ch <= 'Z' }

  /** Upper-casing of one character; only the ASCII letters have a case here. */
  function UpperCase(ch: char): (r: char)
    ensures IsLower(ch) ==> IsUpper(r) && r as int - 'A' as int == ch as int - 'a' as int
    ensures !IsLower(ch) ==> r == ch
  {
    if IsLower(ch) then (ch as int - 'a' as int + 'A' as int) as char else ch
  }

  /** A button label: the key with its first character upper-cased. */
  function Capitalize(key: string): (text: string)
    ensures |text| == |key|
    ensures forall i :: 0 < i < |key| ==> text[i] == key[i]
    ensures key != [] ==> text[0] == UpperCase(key[0])
  {
    if key == [] then [] else [UpperCase(key[0])] + key[1..]
  }

  /** Labelling a label again changes nothing. */
  lemma CapitalizeIdempotent(key: string)
    ensures Capitalize(Capitalize(key)) == Capitalize(key)
  {
  }

  /** A key that does not start with an upper-case letter. */
  predicate LowerInitial(key: string)
  {
    key == [] || !IsUpper(key[0])
  }

  /** Distinct keys that do not start with an upper-case letter get distinct labels. */
  lemma CapitalizeInjective(a: string, b: string)
    requires LowerInitial(a) && LowerInitial(b)
    requires Capitalize(a) == Capitalize(b)
    ensures a == b
  {
  }

  /** Palette keys are distinct and none starts with an upper-case letter. */
  predicate WellFormed(colors: seq<Entry>)
  {
    && (forall i, j :: 0 <= i < j < |colors| ==> colors[i].key != colors[j].key)
    && (forall i :: 0 <= i < |colors| ==> LowerInitial(colors[i].key))
  }

  /** The palette loop: one button per entry, in palette order, whose label
      is the capitalized key and whose background and click colour are the
      entry's colour. A well-formed palette gives buttons with distinct labels. */
  method ColorButtons(colors: seq<Entry>) returns (buttons: seq<Button>)
    ensures |buttons| == |colors|
    ensures forall i :: 0 <= i < |colors| ==>
              buttons[i].text == Capitalize(colors[i].key) &&
              buttons[i].background == colors[i].color &&
              buttons[i].onClick == colors[i].color
    ensures WellFormed(colors) ==>
              forall i, j :: 0 <= i < j < |buttons| ==> buttons[i].text != buttons[j].text
  {
    buttons := [];
    var k := 0;
    while k < |colors|
      invariant 0 <= k <= |colors|
      invariant |buttons| == k
      invariant forall i :: 0 <= i < k ==>
                  buttons[i].text == Capitalize(colors[i].key) &&
                  buttons[i].background == colors[i].color &&
                  buttons[i].onClick == colors[i].color
    {
      var entry := colors[k];
      buttons := buttons + [Button(Capitalize(entry.key), entry.color, entry.color)];
      k := k + 1;
    }
    if WellFormed(colors) {
      forall i, j | 0 <= i < j < |buttons| ensures buttons[i].text != buttons[j].text {
        if buttons[i].text == buttons[j].text {
          CapitalizeInjective(colors[i].key, colors[j].key);
        }
      }
    }
  }

  /** The labels of the palette's keys. */
  lemma PaletteLabels()
    ensures Capitalize("red") == "Red"
    ensures Capitalize("blue") == "Blue"
    ensures Capitalize("black") == "Black"
  {
    assert UpperCase('r') == 'R' && UpperCase('b') == 'B';
  }

  /** The palette's buttons: Red, Blue and Black, each with its own colour. */
  method PaletteButtons() returns (buttons: seq<Button>)
    ensures buttons == [Button("Red", 0x820300, 0x820300),
                        Button("Blue", 0x000B58, 0x000B58),
                        Button("Black", 0x000000, 0x000000)]
  {
    buttons := ColorButtons(Colors);
    PaletteLabels();
    assert buttons[0] == Button("Red", 0x820300, 0x820300);
    assert buttons[1] == Button("Blue", 0x000B58, 0x000B58);
    assert buttons[2] == Button("Black", 0x000000, 0x000000);
  }
}
