/**
 * The fixed option lists of the Fehler meta data that the record
 * normalisation checks values against.
 */
module Options {
  import opened Text

  const PriorityOptions: seq<string> := ["Niedrig", "Mittel", "Hoch"]

  const FehlerartOptions: seq<string> := [
    "Beschädigung", "Optik/Erscheinungsbild", "Passungsfehler", "Fehlteil",
    "Montagefehler", "Lackfehler", "Funktion", "Geräusch"]

  /** The category names carry no surrounding whitespace and no comma. */
  lemma OptionsUnpadded(x: string)
    requires x in FehlerartOptions
    ensures Strip(x) == x && x != "" && ',' !in x
  {
    if x == "Beschädigung" { WordUnpadded(x); }
    else if x == "Optik/Erscheinungsbild" { WordUnpadded(x); }
    else if x == "Passungsfehler" { WordUnpadded(x); }
    else if x == "Fehlteil" { WordUnpadded(x); }
    else if x == "Montagefehler" { WordUnpadded(x); }
    else if x == "Lackfehler" { WordUnpadded(x); }
    else if x == "Funktion" { WordUnpadded(x); }
    else { WordUnpadded(x); }
  }

  /** A comma-free word that starts with a capital and ends with a small letter is its own strip. */
  lemma WordUnpadded(x: string)
    requires |x| > 0 && 'A' <= x[0] <= 'Z' && 'a' <= x[|x| - 1] <= 'z' && ',' !in x
    ensures Strip(x) == x && x != "" && ',' !in x
  {
    StripUnpadded(x);
  }

  /** The display labels of the vehicle areas. */
  const VehicleAreaLabels: map<string, string> := map[
    "Front_Exterieur" := "Front (Exterieur)",
    "Rechte_Seite" := "Rechte Seite",
    "Heck_Exterieur" := "Heck (Exterieur)",
    "Linke_Seite" := "Linke Seite",
    "Dach" := "Dach / Oberseite",
    "Interieur_Vorne" := "Interieur Vorne",
    "Interieur_Hinten" := "Interieur Hinten",
    "Motorraum" := "Motorraum",
    "Unterboden" := "Unterboden"]

  /** The display labels of the systems. */
  const SystemDomainLabels: map<string, string> := map[
    "Karosserie" := "Karosserie / Struktur",
    "Lack" := "Lack / Oberfläche",
    "Exterieur" := "Exterieur-Umfänge",
    "Interieur" := "Interieur-Umfänge",
    "Elektrik" := "Elektrik / Elektronik",
    "Antrieb" := "Antrieb",
    "Fahrwerk" := "Fahrwerk",
    "Software" := "Funktionen / Software",
    "Sonstige" := "Sonstige"]
}
